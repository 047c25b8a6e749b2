/**
 * Loading the wallet keys: the list comprehension of `load_wallet_private_keys`,
 * which strips every line of the key file and keeps the non-blank ones in order.
 */
module KeyStore {

  /** Python's `str.isspace` for one character: the code points that `str.strip()` removes. */
  predicate IsSpace(c: char)
  {
    var n := c as int;
    (0x09 <= n <= 0x0D) || (0x1C <= n <= 0x20) || n == 0x85 || n == 0xA0 || n == 0x1680
    || (0x2000 <= n <= 0x200A) || n == 0x2028 || n == 0x2029 || n == 0x202F || n == 0x205F
    || n == 0x3000
  }

  /** No whitespace at either end: what `str.strip()` leaves. */
  predicate IsStripped(s: string)
  {
    s == [] || (!IsSpace(s[0]) && !IsSpace(s[|s| - 1]))
  }

  /** Every character of `s` is whitespace. */
  predicate AllSpace(s: string)
  {
    forall i :: 0 <= i < |s| ==> IsSpace(s[i])
  }

  /** Length of the whitespace run at the start of `s`: what `s.lstrip()` removes. */
  function LeadingSpace(s: string): (n: nat)
    ensures n <= |s|
    ensures forall i :: 0 <= i < n ==> IsSpace(s[i])
    ensures n < |s| ==> !IsSpace(s[n])
  {
    if s == [] || !IsSpace(s[0]) then 0 else 1 + LeadingSpace(s[1..])
  }

  /** Length of the whitespace run at the end of `s`: what `s.rstrip()` removes. */
  function TrailingSpace(s: string): (n: nat)
    ensures n <= |s|
    ensures forall i :: |s| - n <= i < |s| ==> IsSpace(s[i])
    ensures n < |s| ==> !IsSpace(s[|s| - n - 1])
  {
    if s == [] || !IsSpace(s[|s| - 1]) then 0 else 1 + TrailingSpace(s[..|s| - 1])
  }

  /**
   * `s.strip()`: the part of `s` left after removing the leading and the trailing
   * whitespace run. It neither starts nor ends with whitespace, and it is empty
   * exactly when `s` is all whitespace.
   */
  function Strip(s: string): (r: string)
    ensures IsStripped(r)
    ensures r == [] <==> AllSpace(s)
  {
    var t := s[LeadingSpace(s)..];
    t[..|t| - TrailingSpace(t)]
  }

  /**
   * Nothing but whitespace is removed: `s` is a whitespace prefix, then `Strip(s)`
   * unchanged, then a whitespace suffix.
   */
  lemma StripKeepsMiddle(s: string)
    ensures var i := LeadingSpace(s); var r := Strip(s);
      i + |r| <= |s| && r == s[i..i + |r|]
      && (forall k :: 0 <= k < i ==> IsSpace(s[k]))
      && (forall k :: i + |r| <= k < |s| ==> IsSpace(s[k]))
  {
  }

  /** A stripped string is its own strip. */
  lemma StripFixesStripped(s: string)
    requires IsStripped(s)
    ensures Strip(s) == s
  {
  }

  /** Stripping twice is stripping once. */
  lemma StripIdempotent(s: string)
    ensures Strip(Strip(s)) == Strip(s)
  {
    StripFixesStripped(Strip(s));
  }

  /**
   * The comprehension `[f(x) for x in xs if f(x)]` on strings: the non-empty
   * images of the elements, in their order.
   */
  function NonEmptyImages(xs: seq<string>, f: string -> string): (ys: seq<string>)
    ensures |ys| <= |xs|
  {
    if xs == [] then []
    else (if f(xs[0]) != [] then [f(xs[0])] else []) + NonEmptyImages(xs[1..], f)
  }

  /** The comprehension distributes over concatenation. */
  lemma {:induction false} NonEmptyImagesAppend(a: seq<string>, b: seq<string>, f: string -> string)
    ensures NonEmptyImages(a + b, f) == NonEmptyImages(a, f) + NonEmptyImages(b, f)
  {
    if a == [] {
      assert a + b == b;
    } else {
      var head := if f(a[0]) != [] then [f(a[0])] else [];
      calc {
        NonEmptyImages(a + b, f);
        { assert (a + b)[0] == a[0] && (a + b)[1..] == a[1..] + b; }
        head + NonEmptyImages(a[1..] + b, f);
        { NonEmptyImagesAppend(a[1..], b, f); }
        head + (NonEmptyImages(a[1..], f) + NonEmptyImages(b, f));
        (head + NonEmptyImages(a[1..], f)) + NonEmptyImages(b, f);
      }
    }
  }

  /** The keys found in `lines`: each line stripped, blank ones dropped, order kept. */
  function KeysFromLines(lines: seq<string>): (keys: seq<string>)
    ensures |keys| <= |lines|
  {
    NonEmptyImages(lines, Strip)
  }

  /** Every loaded key is non-empty and has no whitespace at either end. */
  lemma KeysAreStripped(lines: seq<string>)
    ensures forall key :: key in KeysFromLines(lines) ==> key != [] && IsStripped(key)
  {
    forall key | key in KeysFromLines(lines)
      ensures key != [] && IsStripped(key)
    {
      KeysFromLinesMembers(lines, key);
    }
  }

  /** The key file as the program sees it: its lines, or an error while opening or reading it. */
  datatype KeyFile = Unreadable | Readable(lines: seq<string>)

  /** `load_wallet_private_keys`: any error while reading yields no keys at all. */
  function LoadWalletPrivateKeys(file: KeyFile): (keys: seq<string>)
    ensures file.Unreadable? ==> keys == []
    ensures file.Readable? ==> keys == KeysFromLines(file.lines)
    ensures forall key :: key in keys ==> key != [] && IsStripped(key)
  {
    match file
    case Unreadable => []
    case Readable(lines) => KeysAreStripped(lines); KeysFromLines(lines)
  }

  /** Parsing distributes over splitting the file: keys of earlier lines come first. */
  lemma KeysFromLinesAppend(a: seq<string>, b: seq<string>)
    ensures KeysFromLines(a + b) == KeysFromLines(a) + KeysFromLines(b)
  {
    NonEmptyImagesAppend(a, b, Strip);
  }

  /** One line contributes its stripped text, or nothing when it is blank. */
  lemma KeysFromOneLine(line: string)
    ensures KeysFromLines([line]) == if AllSpace(line) then [] else [Strip(line)]
  {
    assert [line][1..] == [];
  }

  /** An element of the comprehension is exactly a non-empty image of some element. */
  lemma {:induction false} NonEmptyImagesMembers(xs: seq<string>, f: string -> string, y: string)
    ensures y in NonEmptyImages(xs, f) <==> y != [] && exists i :: 0 <= i < |xs| && f(xs[i]) == y
  {
    if xs != [] {
      NonEmptyImagesMembers(xs[1..], f, y);
      if y != [] && f(xs[0]) != y {
        if exists i :: 0 <= i < |xs| && f(xs[i]) == y {
          var i :| 0 <= i < |xs| && f(xs[i]) == y;
          assert xs[1..][i - 1] == xs[i];
        }
      }
    }
  }

  /** A string is a key exactly when it is the non-empty strip of some line. */
  lemma KeysFromLinesMembers(lines: seq<string>, key: string)
    ensures key in KeysFromLines(lines) <==>
      key != [] && exists i :: 0 <= i < |lines| && Strip(lines[i]) == key
  {
    NonEmptyImagesMembers(lines, Strip, key);
  }

  /** Number of lines that are not blank. */
  function NonBlankCount(lines: seq<string>): nat
  {
    if lines == [] then 0 else (if AllSpace(lines[0]) then 0 else 1) + NonBlankCount(lines[1..])
  }

  /** Exactly one key per non-blank line: no line is dropped unless it is blank. */
  lemma {:induction false} KeysFromLinesCount(lines: seq<string>)
    ensures |KeysFromLines(lines)| == NonBlankCount(lines)
  {
    if lines != [] {
      KeysFromLinesCount(lines[1..]);
    }
  }

  /** Stripping a padded string gives back exactly what was padded. */
  lemma StripPadded(pre: string, s: string, post: string)
    requires AllSpace(pre) && AllSpace(post) && IsStripped(s)
    ensures Strip(pre + s + post) == s
  {
    var x := pre + s + post;
    if s == [] {
      assert AllSpace(x);
    } else {
      assert x[|pre|] == s[0];
      assert LeadingSpace(x) == |pre|;
      var t := x[|pre|..];
      assert t == s + post;
      assert t[|s| - 1] == s[|s| - 1];
      assert TrailingSpace(t) == |post|;
      assert t[..|s|] == s;
    }
  }

  /** A padded key line followed by a blank line yields that one key. */
  lemma KeyLineThenBlank(pre: string, key: string, post: string, blank: string)
    requires key != [] && IsStripped(key) && AllSpace(pre) && AllSpace(post) && AllSpace(blank)
    ensures KeysFromLines([pre + key + post, blank]) == [key]
  {
    StripPadded(pre, key, post);
    KeysFromLinesAppend([pre + key + post], [blank]);
    KeysFromOneLine(pre + key + post);
    KeysFromOneLine(blank);
  }

  /**
   * Two keys padded with whitespace, an empty line and a whitespace-only line: the
   * padding and both blank lines disappear, the two keys stay in file order.
   */
  lemma LoadPaddedKeys(keyA: string, keyB: string, padA: string, padB: string, blank: string)
    requires keyA != [] && IsStripped(keyA) && keyB != [] && IsStripped(keyB)
    requires AllSpace(padA) && AllSpace(padB) && AllSpace(blank)
    ensures KeysFromLines([padA + keyA + padA, "", padB + keyB + padB, blank]) == [keyA, keyB]
  {
    KeyLineThenBlank(padA, keyA, padA, "");
    KeyLineThenBlank(padB, keyB, padB, blank);
    KeysFromLinesAppend([padA + keyA + padA, ""], [padB + keyB + padB, blank]);
    assert [padA + keyA + padA, ""] + [padB + keyB + padB, blank]
        == [padA + keyA + padA, "", padB + keyB + padB, blank];
  }
}

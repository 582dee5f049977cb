/** The JavaScript string built-ins the client relies on, stated over `seq<char>`:
    `trim`, `toLowerCase`, `split` on one character, `join`, `includes`,
    `filter(Boolean)` and the decimal rendering of a whole number. */
module Text {

  /** The characters `String.prototype.trim` removes: ECMAScript WhiteSpace
      (tab, vertical tab, form feed, space, no-break space, byte order mark and
      the Zs category) and LineTerminator (LF, CR, LS, PS). */
  predicate IsSpace(c: char) {
    c == '\t' || c == '\n' || c == '\U{0B}' || c == '\U{0C}' || c == '\r' || c == ' ' ||
    c == '\U{A0}' || c == '\U{1680}' || ('\U{2000}' <= c <= '\U{200A}') ||
    c == '\U{2028}' || c == '\U{2029}' || c == '\U{202F}' || c == '\U{205F}' ||
    c == '\U{3000}' || c == '\U{FEFF}'
  }

  predicate AllSpace(s: string) {
    forall i :: 0 <= i < |s| ==> IsSpace(s[i])
  }

  /** True when `s` has no whitespace at either end, i.e. `s.trim() === s`. */
  predicate IsTrimmed(s: string) {
    s == [] || (!IsSpace(s[0]) && !IsSpace(s[|s| - 1]))
  }

  function TrimStart(s: string): (r: string)
    ensures |r| <= |s| && r == s[|s| - |r|..]
    ensures r == [] || !IsSpace(r[0])
  {
    if s != [] && IsSpace(s[0]) then TrimStart(s[1..]) else s
  }

  function TrimEnd(s: string): (r: string)
    ensures |r| <= |s| && r == s[..|r|]
    ensures r == [] || !IsSpace(r[|r| - 1])
  {
    if s != [] && IsSpace(s[|s| - 1]) then TrimEnd(s[..|s| - 1]) else s
  }

  /** `trimStart` removes whitespace only. */
  lemma {:induction false} TrimStartDropsSpace(s: string)
    ensures AllSpace(s[..|s| - |TrimStart(s)|])
    decreases |s|
  {
    if s != [] && IsSpace(s[0]) {
      TrimStartDropsSpace(s[1..]);
      var n := |s| - |TrimStart(s)|;
      forall k | 0 <= k < n ensures IsSpace(s[..n][k]) {
        if k > 0 {
          assert s[..n][k] == s[1..][..n - 1][k - 1];
        }
      }
    }
  }

  /** `trimEnd` removes whitespace only. */
  lemma {:induction false} TrimEndDropsSpace(s: string)
    ensures AllSpace(s[|TrimEnd(s)|..])
    decreases |s|
  {
    if s != [] && IsSpace(s[|s| - 1]) {
      var s' := s[..|s| - 1];
      TrimEndDropsSpace(s');
      var m := |TrimEnd(s)|;
      forall k | 0 <= k < |s| - m ensures IsSpace(s[m..][k]) {
        if m + k < |s| - 1 {
          assert s[m..][k] == s'[m..][k];
        }
      }
    }
  }

  /** `s.trim()`: what is left after dropping the whitespace at both ends. */
  function Trim(s: string): (r: string)
    ensures IsTrimmed(r)
    ensures |r| <= |s|
  {
    var a := TrimStart(s);
    var r := TrimEnd(a);
    assert IsTrimmed(r) by {
      if r != [] {
        assert r[0] == a[0];
      }
    }
    r
  }

  /** The trimmed text is a slice of the input with only whitespace around it. */
  lemma TrimSlice(s: string)
    ensures exists i, j :: 0 <= i <= j <= |s| && Trim(s) == s[i..j] && AllSpace(s[..i]) && AllSpace(s[j..])
  {
    var a := TrimStart(s);
    var r := TrimEnd(a);
    var i := |s| - |a|;
    var j := i + |r|;
    TrimStartDropsSpace(s);
    TrimEndDropsSpace(a);
    assert r == s[i..][..|r|] == s[i..j];
    assert s[j..] == a[|r|..];
  }

  lemma TrimOfTrimmed(s: string)
    requires IsTrimmed(s)
    ensures Trim(s) == s
  {
  }

  lemma {:induction false} TrimStartSkipsSpace(w: string, s: string)
    requires AllSpace(w)
    ensures TrimStart(w + s) == TrimStart(s)
  {
    if w == [] {
      assert w + s == s;
    } else {
      assert (w + s)[0] == w[0] && IsSpace(w[0]);
      assert (w + s)[1..] == w[1..] + s;
      assert AllSpace(w[1..]) by {
        forall k | 0 <= k < |w[1..]| ensures IsSpace(w[1..][k]) {
          assert w[1..][k] == w[k + 1];
        }
      }
      TrimStartSkipsSpace(w[1..], s);
      assert TrimStart(w + s) == TrimStart((w + s)[1..]);
    }
  }

  /** A blank text trims to nothing. */
  lemma TrimOfSpace(s: string)
    requires AllSpace(s)
    ensures Trim(s) == ""
  {
    TrimStartSkipsSpace(s, "");
    assert s + "" == s;
  }

  /** Trimming only removes characters. */
  lemma TrimChars(s: string)
    ensures forall ch :: ch in Trim(s) ==> ch in s
  {
    var a := TrimStart(s);
    var r := TrimEnd(a);
    assert Trim(s) == r;
    forall ch | ch in r ensures ch in s {
      var k :| 0 <= k < |r| && r[k] == ch;
      assert a[k] == ch;
      assert s[|s| - |a| + k] == ch;
    }
  }

  /** Leading whitespace never changes the trimmed text. */
  lemma TrimSkipsLeadingSpace(w: string, s: string)
    requires AllSpace(w)
    ensures Trim(w + s) == Trim(s)
  {
    TrimStartSkipsSpace(w, s);
  }

  /** `String.prototype.toLowerCase` on one character: the basic Latin and
      Latin-1 capitals (U+0041..U+005A, U+00C0..U+00DE except U+00D7) map to
      their small letters; every other character is left as it is. */
  function LowerChar(c: char): char {
    if 'A' <= c <= 'Z' || ('\U{C0}' <= c <= '\U{DE}' && c != '\U{D7}') then
      (c as int + 32) as char
    else
      c
  }

  /** True of the characters `LowerChar` can return. */
  predicate IsLowerFixed(c: char) {
    !('A' <= c <= 'Z') && !('\U{C0}' <= c <= '\U{DE}' && c != '\U{D7}')
  }

  lemma LowerCharIsLower(c: char)
    ensures IsLowerFixed(LowerChar(c))
    ensures LowerChar(LowerChar(c)) == LowerChar(c)
    ensures IsLowerFixed(c) ==> LowerChar(c) == c
  {
  }

  function Lower(s: string): (r: string)
    ensures |r| == |s|
    ensures forall i {:trigger r[i]} :: 0 <= i < |s| ==> r[i] == LowerChar(s[i])
  {
    seq(|s|, i requires 0 <= i < |s| => LowerChar(s[i]))
  }

  /** Lower-casing never turns a character into whitespace or back. */
  lemma LowerCharKeepsSpace(c: char)
    ensures IsSpace(LowerChar(c)) == IsSpace(c)
  {
  }

  /** Lower-casing a trimmed text leaves it trimmed. */
  lemma LowerKeepsTrimmed(s: string)
    requires IsTrimmed(s)
    ensures IsTrimmed(Lower(s))
  {
    if s != [] {
      LowerCharKeepsSpace(s[0]);
      LowerCharKeepsSpace(s[|s| - 1]);
    }
  }

  /** True when `s.toLowerCase() === s`. */
  predicate IsLower(s: string) {
    forall i :: 0 <= i < |s| ==> IsLowerFixed(s[i])
  }

  lemma LowerIsLower(s: string)
    ensures IsLower(Lower(s))
    ensures Lower(Lower(s)) == Lower(s)
  {
    forall i | 0 <= i < |s| ensures IsLowerFixed(Lower(s)[i]) && LowerChar(Lower(s)[i]) == Lower(s)[i] {
      LowerCharIsLower(s[i]);
    }
  }

  lemma LowerOfLower(s: string)
    requires IsLower(s)
    ensures Lower(s) == s
  {
    forall i | 0 <= i < |s| ensures Lower(s)[i] == s[i] {
      LowerCharIsLower(s[i]);
    }
  }

  /** A string that is not all lower-case is never the lower-cased form of anything. */
  lemma NotLowerNeverALowering(t: string, s: string)
    requires !IsLower(t)
    ensures Lower(s) != t
  {
    LowerIsLower(s);
  }

  /** `s.split(c)` for a one-character separator: the pieces between the
      occurrences of `c`, so `"".split(",")` is `[""]` and every separator
      yields a piece on each side. */
  function Split(s: string, c: char): (r: seq<string>)
    ensures |r| >= 1
    decreases |s|
  {
    if s == [] then [""]
    else if s[0] == c then [""] + Split(s[1..], c)
    else
      var t := Split(s[1..], c);
      [[s[0]] + t[0]] + t[1..]
  }

  /** A leading character other than the separator joins the first piece. */
  lemma SplitLeadingChar(ch: char, s: string, c: char)
    requires ch != c
    ensures Split([ch] + s, c) == [[ch] + Split(s, c)[0]] + Split(s, c)[1..]
  {
    assert ([ch] + s)[1..] == s;
  }

  /** Splitting around one separator splits each side on its own. */
  lemma {:induction false} SplitAround(a: string, b: string, c: char)
    ensures Split(a + [c] + b, c) == Split(a, c) + Split(b, c)
    decreases |a|
  {
    var s := a + [c] + b;
    if a == [] {
      assert s[1..] == b;
    } else {
      assert s[1..] == a[1..] + [c] + b;
      SplitAround(a[1..], b, c);
    }
  }

  /** `parts.join(sep)`. */
  function Join(parts: seq<string>, sep: string): (r: string)
    decreases |parts|
  {
    if parts == [] then ""
    else if |parts| == 1 then parts[0]
    else parts[0] + sep + Join(parts[1..], sep)
  }

  lemma {:induction false} SplitPiecesAvoidSeparator(s: string, c: char)
    ensures forall p :: p in Split(s, c) ==> c !in p
    decreases |s|
  {
    if s != [] {
      SplitPiecesAvoidSeparator(s[1..], c);
    }
  }

  lemma {:induction false} SplitPiecesFromInput(s: string, c: char)
    ensures forall p, ch :: p in Split(s, c) && ch in p ==> ch in s
    decreases |s|
  {
    if s != [] {
      SplitPiecesFromInput(s[1..], c);
      assert forall ch :: ch in s[1..] ==> ch in s;
    }
  }

  /** There is one more piece than there are separators. */
  lemma {:induction false} SplitCount(s: string, c: char)
    ensures |Split(s, c)| == multiset(s)[c] + 1
    decreases |s|
  {
    if s != [] {
      SplitCount(s[1..], c);
      assert s == [s[0]] + s[1..];
      assert multiset(s) == multiset{s[0]} + multiset(s[1..]);
    }
  }

  /** Joining the pieces with the separator gives the string back. */
  lemma {:induction false} JoinSplit(s: string, c: char)
    ensures Join(Split(s, c), [c]) == s
    decreases |s|
  {
    if s != [] {
      var t := Split(s[1..], c);
      JoinSplit(s[1..], c);
      if s[0] != c {
        if |t| == 1 {
        } else {
          calc {
            Join(Split(s, c), [c]);
            ([s[0]] + t[0]) + [c] + Join(t[1..], [c]);
            [s[0]] + (t[0] + [c] + Join(t[1..], [c]));
            [s[0]] + Join(t, [c]);
            s;
          }
        }
      }
    }
  }

  /** Splitting a joined list whose items avoid the separator gives the items back. */
  lemma {:induction false} SplitJoin(parts: seq<string>, c: char)
    requires |parts| >= 1
    requires forall p :: p in parts ==> c !in p
    ensures Split(Join(parts, [c]), c) == parts
    decreases |parts|, |parts[0]|
  {
    var p := parts[0];
    if p == [] {
      if |parts| > 1 {
        assert Join(parts, [c]) == [c] + Join(parts[1..], [c]);
        assert (([c] + Join(parts[1..], [c]))[1..]) == Join(parts[1..], [c]);
        SplitJoin(parts[1..], c);
      }
    } else {
      var parts' := [p[1..]] + parts[1..];
      forall q | q in parts' ensures c !in q {
        if q == p[1..] {
          assert parts[0] in parts;
          assert forall k :: 0 <= k < |q| ==> q[k] == p[k + 1] && p[k + 1] in p;
        } else {
          assert q in parts;
        }
      }
      SplitJoin(parts', c);
      var rest := Join(parts', [c]);
      if |parts| == 1 {
        assert Join(parts, [c]) == [p[0]] + rest;
      } else {
        assert Join(parts, [c]) == [p[0]] + rest;
      }
      assert ([p[0]] + rest)[1..] == rest;
      assert p[0] != c by { assert p[0] in p; }
      assert [p[0]] + p[1..] == p;
    }
  }

  /** `list.filter(Boolean)` on strings: drops the empty ones, keeps the order. */
  function NonEmpty(xs: seq<string>): (r: seq<string>)
    ensures |r| <= |xs|
    ensures forall x :: x in r ==> x != "" && x in xs
    ensures forall x :: x in xs && x != "" ==> x in r
  {
    if xs == [] then []
    else if xs[0] == "" then NonEmpty(xs[1..])
    else [xs[0]] + NonEmpty(xs[1..])
  }

  lemma {:induction false} NonEmptyOfNonEmpty(xs: seq<string>)
    requires forall x :: x in xs ==> x != ""
    ensures NonEmpty(xs) == xs
  {
    if xs != [] {
      assert forall x :: x in xs[1..] ==> x in xs;
      NonEmptyOfNonEmpty(xs[1..]);
      assert xs[0] in xs;
      assert [xs[0]] + xs[1..] == xs;
    }
  }

  /** A list of empty strings filters to nothing. */
  lemma {:induction false} NonEmptyOfEmpties(xs: seq<string>)
    requires forall x :: x in xs ==> x == ""
    ensures NonEmpty(xs) == []
  {
    if xs != [] {
      assert xs[0] in xs;
      assert forall x :: x in xs[1..] ==> x in xs;
      NonEmptyOfEmpties(xs[1..]);
    }
  }

  /** Filtering distributes over concatenation. */
  lemma {:induction false} NonEmptyConcat(xs: seq<string>, ys: seq<string>)
    ensures NonEmpty(xs + ys) == NonEmpty(xs) + NonEmpty(ys)
  {
    if xs == [] {
      assert xs + ys == ys;
    } else {
      assert (xs + ys)[0] == xs[0] && (xs + ys)[1..] == xs[1..] + ys;
      NonEmptyConcat(xs[1..], ys);
    }
  }

  /** `hay.startsWith(needle)`. */
  predicate StartsWith(hay: string, needle: string) {
    |needle| <= |hay| && hay[..|needle|] == needle
  }

  /** `hay.includes(needle)`. */
  predicate Includes(hay: string, needle: string)
    decreases |hay|
  {
    StartsWith(hay, needle) || (hay != [] && Includes(hay[1..], needle))
  }

  /** `needle` occurs in `hay` starting at position `i`. */
  predicate OccursAt(hay: string, needle: string, i: int) {
    0 <= i <= |hay| - |needle| && hay[i..i + |needle|] == needle
  }

  lemma {:induction false} IncludesAt(hay: string, needle: string)
    ensures Includes(hay, needle) <==> exists i :: OccursAt(hay, needle, i)
    decreases |hay|
  {
    if StartsWith(hay, needle) {
      assert OccursAt(hay, needle, 0);
    } else if hay != [] {
      IncludesAt(hay[1..], needle);
      if exists i :: OccursAt(hay, needle, i) {
        var i :| OccursAt(hay, needle, i);
        assert i != 0;
        assert hay[1..][i - 1..i - 1 + |needle|] == hay[i..i + |needle|];
        assert OccursAt(hay[1..], needle, i - 1);
      }
      if Includes(hay[1..], needle) {
        var i :| OccursAt(hay[1..], needle, i);
        assert hay[i + 1..i + 1 + |needle|] == hay[1..][i..i + |needle|];
        assert OccursAt(hay, needle, i + 1);
      }
    }
  }

  function DigitChar(d: nat): (c: char)
    requires d < 10
    ensures '0' <= c <= '9'
  {
    ['0', '1', '2', '3', '4', '5', '6', '7', '8', '9'][d]
  }

  predicate IsDigit(c: char) { '0' <= c <= '9' }

  /** `String(n)` for a whole number `n`: its decimal digits. */
  function NatText(n: nat): (r: string)
    ensures r != []
    ensures forall i :: 0 <= i < |r| ==> IsDigit(r[i])
    ensures r[0] == '0' ==> n == 0 && r == "0"
  {
    if n < 10 then [DigitChar(n)] else NatText(n / 10) + [DigitChar(n % 10)]
  }
}

/**
 * The .NET string operations the core relies on, on Dafny strings
 * (sequences of Unicode scalar values): prefix and suffix tests, the first
 * occurrence of a substring, `String.Split` with a string or a character
 * separator, `String.Trim`, ASCII case mapping, decimal formatting, and the
 * UTF-8 encoding of `Encoding.UTF8.GetBytes`.
 */
module Text {
  import opened Wrappers
  import opened Bytes

  predicate StartsWith(s: string, p: string)
  {
    |p| <= |s| && s[..|p|] == p
  }

  predicate EndsWith(s: string, p: string)
  {
    |p| <= |s| && s[|s| - |p|..] == p
  }

  /** `p` occurs in `s` at position `j`. */
  predicate OccursAt(s: string, p: string, j: int)
  {
    0 <= j && j + |p| <= |s| && s[j..j + |p|] == p
  }

  /** The first position at which `p` occurs in `s` (`String.IndexOf`). */
  function IndexOf(s: string, p: string): (r: Option<nat>)
    ensures r.Some? ==> OccursAt(s, p, r.value)
    ensures r.Some? ==> forall j :: 0 <= j < r.value ==> !OccursAt(s, p, j)
    ensures r.None? ==> forall j :: !OccursAt(s, p, j)
    decreases |s|
  {
    if StartsWith(s, p) then Some(0)
    else if s == [] then None
    else
      match IndexOf(s[1..], p)
      case None =>
        OccursShift(s, p);
        None
      case Some(i) =>
        OccursShift(s, p);
        Some(i + 1)
  }

  /** Past position 0, `p` occurs in `s` where it occurs in `s[1..]`, one position on. */
  lemma OccursShift(s: string, p: string)
    requires s != [] && !StartsWith(s, p)
    ensures !OccursAt(s, p, 0)
    ensures forall j :: 1 <= j ==> (OccursAt(s, p, j) <==> OccursAt(s[1..], p, j - 1))
  {
    forall j | 1 <= j ensures OccursAt(s, p, j) <==> OccursAt(s[1..], p, j - 1) {
      if j + |p| <= |s| {
        SliceOfTail(s, j, j + |p|);
      }
    }
  }

  lemma SliceOfTail(s: string, a: nat, b: nat)
    requires 1 <= a <= b <= |s|
    ensures s[1..][a - 1..b - 1] == s[a..b]
  {
  }

  predicate Contains(s: string, p: string)
  {
    IndexOf(s, p).Some?
  }

  /** The parts joined with `sep` between consecutive parts (`String.Join`). */
  function Join(parts: seq<string>, sep: string): string
  {
    if |parts| == 0 then ""
    else if |parts| == 1 then parts[0]
    else parts[0] + sep + Join(parts[1..], sep)
  }

  /**
   * `s.Split(new[] { sep }, StringSplitOptions.None)`: the pieces between
   * the leftmost non-overlapping occurrences of `sep`. Joining the pieces
   * with `sep` gives `s` back, and no piece contains `sep`.
   */
  function SplitOn(s: string, sep: string): (r: seq<string>)
    requires |sep| > 0
    ensures |r| >= 1
    ensures Join(r, sep) == s
    ensures forall i :: 0 <= i < |r| ==> !Contains(r[i], sep)
    decreases |s|
  {
    match IndexOf(s, sep)
    case None => [s]
    case Some(i) =>
      var rest := SplitOn(s[i + |sep|..], sep);
      assert s == s[..i] + sep + s[i + |sep|..];
      assert !Contains(s[..i], sep) by {
        forall j | OccursAt(s[..i], sep, j) ensures OccursAt(s, sep, j) {
          assert s[..i][j..j + |sep|] == s[j..j + |sep|];
        }
      }
      var r := [s[..i]] + rest;
      assert r[1..] == rest;
      r
  }

  /** `IndexOf` is determined by its characterisation. */
  lemma IndexOfIs(s: string, p: string, i: nat)
    requires OccursAt(s, p, i)
    requires forall j :: 0 <= j < i ==> !OccursAt(s, p, j)
    ensures IndexOf(s, p) == Some(i)
  {
  }

  /** `p` does not occur in `s` when it occurs at no position. */
  lemma NotContains(s: string, p: string)
    requires forall j :: !OccursAt(s, p, j)
    ensures !Contains(s, p)
  {
  }

  /** The separator's first character does not reappear in it, so occurrences never overlap. */
  predicate FirstCharUnique(sep: string)
  {
    |sep| >= 1 && forall k :: 1 <= k < |sep| ==> sep[k] != sep[0]
  }

  /** After a text without the separator, the separator is found right where it was put. */
  lemma IndexOfAfter(a: string, sep: string, b: string)
    requires FirstCharUnique(sep) && !Contains(a, sep)
    ensures IndexOf(a + sep + b, sep) == Some(|a|)
  {
    var s := a + sep + b;
    assert s[|a|..|a| + |sep|] == sep;
    forall j | 0 <= j < |a| ensures !OccursAt(s, sep, j) {
      if j + |sep| <= |a| {
        assert !OccursAt(a, sep, j);
        assert a[j..j + |sep|] == s[j..j + |sep|];
      } else if j + |sep| <= |s| {
        assert s[|a|] == sep[0];
        assert s[j..j + |sep|][|a| - j] == s[|a|];
      }
    }
    IndexOfIs(s, sep, |a|);
  }

  /** Appending text cannot move the first occurrence of `p`. */
  lemma IndexOfExtend(a: string, p: string, c: string)
    requires IndexOf(a, p).Some?
    ensures IndexOf(a + c, p) == IndexOf(a, p)
  {
    var i := IndexOf(a, p).value;
    assert (a + c)[i..i + |p|] == a[i..i + |p|];
    forall j | 0 <= j < i ensures !OccursAt(a + c, p, j) {
      assert !OccursAt(a, p, j);
      assert (a + c)[j..j + |p|] == a[j..j + |p|];
    }
    IndexOfIs(a + c, p, i);
  }

  /** Splitting distributes over a separator placed between two texts. */
  lemma {:induction false} SplitOnAppend(a: string, sep: string, b: string)
    requires FirstCharUnique(sep)
    ensures SplitOn(a + sep + b, sep) == SplitOn(a, sep) + SplitOn(b, sep)
    decreases |a|
  {
    if IndexOf(a, sep).None? {
      SplitOnAppendFirst(a, sep, b);
    } else {
      var i := IndexOf(a, sep).value;
      var rest := a[i + |sep|..];
      SplitOnFirst(a, sep, i);
      SplitOnAppendLater(a, sep, b, i);
      SplitOnAppend(rest, sep, b);
      ConsThenAppend(a[..i], SplitOn(rest, sep), SplitOn(b, sep), SplitOn(a, sep),
                     SplitOn(rest + sep + b, sep), SplitOn(a + sep + b, sep));
    }
  }

  lemma ConsThenAppend(h: string, xs: seq<string>, ys: seq<string>, hxs: seq<string>, xys: seq<string>, hxys: seq<string>)
    requires hxs == [h] + xs && xys == xs + ys && hxys == [h] + xys
    ensures hxys == hxs + ys
  {
  }

  /** A first part without the separator is the first piece. */
  lemma SplitOnAppendFirst(a: string, sep: string, b: string)
    requires FirstCharUnique(sep) && IndexOf(a, sep).None?
    ensures SplitOn(a + sep + b, sep) == SplitOn(a, sep) + SplitOn(b, sep)
  {
    SplitOnAfter(a, sep, b);
    SplitOnNone(a, sep);
  }

  /** A text without the separator, then the separator, is split off as the first piece. */
  lemma SplitOnAfter(a: string, sep: string, b: string)
    requires FirstCharUnique(sep) && !Contains(a, sep)
    ensures SplitOn(a + sep + b, sep) == [a] + SplitOn(b, sep)
  {
    var s := a + sep + b;
    IndexOfAfter(a, sep, b);
    SplitOnFirst(s, sep, |a|);
    assert s[|a| + |sep|..] == b && s[..|a|] == a;
  }

  /** A first part with the separator splits at the same place, the rest followed by `sep + b`. */
  lemma SplitOnAppendLater(a: string, sep: string, b: string, i: nat)
    requires FirstCharUnique(sep) && IndexOf(a, sep) == Some(i)
    ensures SplitOn(a + sep + b, sep) == [a[..i]] + SplitOn(a[i + |sep|..] + sep + b, sep)
  {
    var c := sep + b;
    IndexOfExtend(a, sep, c);
    SplitOnFirst(a + c, sep, i);
    SliceOfAppend(a, c, i, i + |sep|);
    Associate(a, sep, b);
    Associate(a[i + |sep|..], sep, b);
  }

  lemma Associate(a: string, b: string, c: string)
    ensures a + (b + c) == a + b + c
  {
  }

  /** The slices of `a + c` that end or start inside `a`. */
  lemma SliceOfAppend(a: string, c: string, i: nat, j: nat)
    requires i <= j <= |a|
    ensures (a + c)[..i] == a[..i]
    ensures (a + c)[j..] == a[j..] + c
  {
  }

  /** One step of splitting: the piece before the first separator, then the rest split. */
  lemma SplitOnFirst(s: string, sep: string, i: nat)
    requires |sep| > 0 && IndexOf(s, sep) == Some(i)
    ensures SplitOn(s, sep) == [s[..i]] + SplitOn(s[i + |sep|..], sep)
  {
  }

  /** A text with no separator is one piece. */
  lemma SplitOnNone(s: string, sep: string)
    requires |sep| > 0 && !Contains(s, sep)
    ensures SplitOn(s, sep) == [s]
  {
  }

  /** A text that contains the separator splits into at least two pieces. */
  lemma SplitOnSome(s: string, sep: string)
    requires |sep| > 0 && Contains(s, sep)
    ensures |SplitOn(s, sep)| >= 2
    ensures SplitOn(s, sep)[0] == s[..IndexOf(s, sep).value]
  {
  }

  /** Splitting a join of separator-free pieces gives the pieces back. */
  lemma {:induction false} SplitJoin(parts: seq<string>, sep: string)
    requires FirstCharUnique(sep) && |parts| >= 1
    requires forall i :: 0 <= i < |parts| ==> !Contains(parts[i], sep)
    ensures SplitOn(Join(parts, sep), sep) == parts
  {
    if |parts| == 1 {
      SplitOnNone(parts[0], sep);
    } else {
      SplitJoin(parts[1..], sep);
      SplitOnAppend(parts[0], sep, Join(parts[1..], sep));
      SplitOnNone(parts[0], sep);
      assert parts == [parts[0]] + parts[1..];
    }
  }

  /** `s.Split(c)`: splitting on a one-character separator. */
  function SplitChar(s: string, c: char): (r: seq<string>)
    ensures |r| >= 1
  {
    SplitOn(s, [c])
  }

  /** The characters `char.IsWhiteSpace` accepts (also the regex class `\s`). */
  predicate IsWhiteSpace(c: char)
  {
    ('\t' <= c <= '\r') || c == ' ' || c == '\U{0085}' || c == '\U{00A0}' || c == '\U{1680}'
    || ('\U{2000}' <= c <= '\U{200A}') || c == '\U{2028}' || c == '\U{2029}'
    || c == '\U{202F}' || c == '\U{205F}' || c == '\U{3000}'
  }

  predicate AllWhiteSpace(s: string)
  {
    forall i :: 0 <= i < |s| ==> IsWhiteSpace(s[i])
  }

  /** One step of `TrimStart`: a white-space head joins the trimmed-off prefix. */
  lemma TrimStartStep(s: string, r: string)
    requires s != [] && IsWhiteSpace(s[0])
    requires |r| <= |s| - 1 && r == s[1..][|s| - 1 - |r|..]
    requires AllWhiteSpace(s[1..][..|s| - 1 - |r|])
    ensures r == s[|s| - |r|..] && AllWhiteSpace(s[..|s| - |r|])
  {
    var k := |s| - |r|;
    assert s[1..][k - 1..] == s[k..];
    forall i | 0 <= i < k ensures IsWhiteSpace(s[..k][i]) {
      if i > 0 {
        assert s[..k][i] == s[1..][..k - 1][i - 1];
      }
    }
  }

  /** One step of `TrimEnd`: a white-space last character joins the trimmed-off suffix. */
  lemma TrimEndStep(s: string, r: string)
    requires s != [] && IsWhiteSpace(s[|s| - 1])
    requires |r| <= |s| - 1 && r == s[..|s| - 1][..|r|]
    requires AllWhiteSpace(s[..|s| - 1][|r|..])
    ensures r == s[..|r|] && AllWhiteSpace(s[|r|..])
  {
    var k := |r|;
    assert s[..|s| - 1][..k] == s[..k];
    forall i | 0 <= i < |s| - k ensures IsWhiteSpace(s[k..][i]) {
      if i < |s| - 1 - k {
        assert s[k..][i] == s[..|s| - 1][k..][i];
      }
    }
  }

  function TrimStart(s: string): (r: string)
    ensures |r| <= |s| && r == s[|s| - |r|..]
    ensures r != [] ==> !IsWhiteSpace(r[0])
    ensures AllWhiteSpace(s[..|s| - |r|])
  {
    if s != [] && IsWhiteSpace(s[0]) then
      var r := TrimStart(s[1..]);
      TrimStartStep(s, r);
      r
    else s
  }

  function TrimEnd(s: string): (r: string)
    ensures |r| <= |s| && r == s[..|r|]
    ensures r != [] ==> !IsWhiteSpace(r[|r| - 1])
    ensures AllWhiteSpace(s[|r|..])
  {
    if s != [] && IsWhiteSpace(s[|s| - 1]) then
      var r := TrimEnd(s[..|s| - 1]);
      TrimEndStep(s, r);
      r
    else s
  }

  /** `String.Trim`: `s` without its leading and trailing white space. */
  function Trim(s: string): (r: string)
    ensures |r| <= |s|
    ensures r != [] ==> !IsWhiteSpace(r[0]) && !IsWhiteSpace(r[|r| - 1])
    ensures forall i :: 0 <= i < |r| ==> r[i] in s
  {
    var t := TrimStart(s);
    var r := TrimEnd(t);
    SliceCharsIn(s, t, r);
    r
  }

  /** A prefix of a suffix of `s` holds only characters of `s`. */
  lemma SliceCharsIn(s: string, t: string, r: string)
    requires |t| <= |s| && t == s[|s| - |t|..]
    requires |r| <= |t| && r == t[..|r|]
    ensures forall i :: 0 <= i < |r| ==> r[i] in s
  {
    forall i | 0 <= i < |r| ensures r[i] in s {
      assert r[i] == s[|s| - |t| + i];
    }
  }

  /**
   * Trimming removes exactly the surrounding white space: a value whose
   * first and last characters are not white space comes back unchanged
   * from between any runs of white space.
   */
  lemma {:induction false} TrimSurrounded(before: string, v: string, after: string)
    requires AllWhiteSpace(before) && AllWhiteSpace(after)
    requires v != [] ==> !IsWhiteSpace(v[0]) && !IsWhiteSpace(v[|v| - 1])
    ensures Trim(before + v + after) == v
  {
    if v == [] {
      assert before + v + after + [] == before + after;
      TrimStartOff(before + after, []);
      assert TrimStart(before + v + after) == [];
    } else {
      assert before + v + after == before + (v + after);
      assert (v + after)[0] == v[0];
      TrimStartOff(before, v + after);
      TrimEndOff(v, after);
    }
  }

  lemma {:induction false} TrimStartOff(ws: string, s: string)
    requires AllWhiteSpace(ws)
    requires s == [] || !IsWhiteSpace(s[0])
    ensures TrimStart(ws + s) == s
    decreases |ws|
  {
    if ws != [] {
      assert (ws + s)[1..] == ws[1..] + s;
      TrimStartOff(ws[1..], s);
    } else {
      assert ws + s == s;
    }
  }

  lemma {:induction false} TrimEndOff(s: string, ws: string)
    requires AllWhiteSpace(ws)
    requires s == [] || !IsWhiteSpace(s[|s| - 1])
    ensures TrimEnd(s + ws) == s
    decreases |ws|
  {
    if ws != [] {
      assert (s + ws)[..|s + ws| - 1] == s + ws[..|ws| - 1];
      TrimEndOff(s, ws[..|ws| - 1]);
    } else {
      assert s + ws == s;
    }
  }

  function ToLowerChar(c: char): (r: char)
  {
    if 'A' <= c <= 'Z' then (c as int + 32) as char else c
  }

  function ToUpperChar(c: char): (r: char)
  {
    if 'a' <= c <= 'z' then (c as int - 32) as char else c
  }

  /** `String.ToLower`, for the ASCII letters. */
  function ToLower(s: string): (r: string)
    ensures |r| == |s|
    ensures forall i :: 0 <= i < |s| ==> r[i] == ToLowerChar(s[i])
  {
    seq(|s|, i requires 0 <= i < |s| => ToLowerChar(s[i]))
  }

  /** `String.ToUpper`, for the ASCII letters. */
  function ToUpper(s: string): (r: string)
    ensures |r| == |s|
    ensures forall i :: 0 <= i < |s| ==> r[i] == ToUpperChar(s[i])
  {
    seq(|s|, i requires 0 <= i < |s| => ToUpperChar(s[i]))
  }

  /** Upper-casing ignores the case of its input: a case-insensitive comparison. */
  lemma UpperOfLower(s: string)
    ensures ToUpper(ToLower(s)) == ToUpper(s)
  {
  }

  function DigitChar(d: nat): (c: char)
    requires d < 10
  {
    ('0' as int + d) as char
  }

  /** The decimal representation of `n`, as `$"{n}"` formats an `int`. */
  function NatToString(n: nat): (r: string)
    ensures |r| >= 1
    ensures forall i :: 0 <= i < |r| ==> '0' <= r[i] <= '9'
  {
    if n < 10 then [DigitChar(n)] else NatToString(n / 10) + [DigitChar(n % 10)]
  }

  /** The UTF-8 bytes of one Unicode scalar value. */
  function Utf8Char(c: char): (r: seq<byte>)
    ensures 1 <= |r| <= 4
    ensures |r| == 1 <==> c as int < 0x80
    ensures |r| == 1 ==> r[0] == c as int
  {
    var v := c as int;
    if v < 0x80 then [v]
    else if v < 0x800 then [0xC0 + v / 64, 0x80 + v % 64]
    else if v < 0x1_0000 then [0xE0 + v / 4096, 0x80 + (v / 64) % 64, 0x80 + v % 64]
    else [0xF0 + v / 0x4_0000, 0x80 + (v / 4096) % 64, 0x80 + (v / 64) % 64, 0x80 + v % 64]
  }

  /** `Encoding.UTF8.GetBytes`. */
  function Utf8(s: string): (r: seq<byte>)
    ensures |r| >= |s|
  {
    if s == [] then [] else Utf8Char(s[0]) + Utf8(s[1..])
  }

  predicate IsAscii(s: string)
  {
    forall i :: 0 <= i < |s| ==> s[i] as int < 0x80
  }

  /** Encoding distributes over concatenation. */
  lemma {:induction false} Utf8Append(a: string, b: string)
    ensures Utf8(a + b) == Utf8(a) + Utf8(b)
  {
    if a != [] {
      assert (a + b)[1..] == a[1..] + b;
      Utf8Append(a[1..], b);
    } else {
      assert a + b == b;
    }
  }

  /** An ASCII string encodes to one byte per character, its code point. */
  lemma {:induction false} Utf8Ascii(s: string)
    requires IsAscii(s)
    ensures |Utf8(s)| == |s|
    ensures forall i :: 0 <= i < |s| ==> Utf8(s)[i] == s[i] as int
  {
    if s != [] {
      Utf8Ascii(s[1..]);
    }
  }
}

/** The PHP string built-ins the alerting core relies on, over `string`
    standing for PHP's byte strings (one `char` per byte):
    `empty()` applied to a string, `trim()` with its default character list,
    and `explode()` together with its inverse `implode()`. */
module PhpStrings {

  /** `empty($s)` for a string value: exactly "" and "0" are empty. Any
      string of two or more characters (such as "00" or " 0") is not, and
      of the one-character strings only the digit zero is. */
  function IsEmpty(s: string): (b: bool)
    ensures b <==> |s| == 0 || (|s| == 1 && s[0] == '0')
    ensures |s| >= 2 ==> !b
  {
    s == "" || s == "0"
  }

  /** The characters `trim()` strips when no character list is given:
      space, tab, line feed, carriage return, NUL and vertical tab. */
  predicate IsBlank(c: char)
  {
    c == ' ' || c == '\t' || c == '\n' || c == '\r' || c == '\U{0}' || c == '\U{B}'
  }

  predicate AllBlank(s: string)
  {
    forall k :: 0 <= k < |s| ==> IsBlank(s[k])
  }

  /** `r` sits at position `i` of `s` with only blanks around it. */
  predicate TrimmedAt(s: string, r: string, i: int)
  {
    && 0 <= i <= |s| - |r|
    && s[i..i + |r|] == r
    && AllBlank(s[..i])
    && AllBlank(s[i + |r|..])
  }

  /** `r` is what trimming `s` must give: a contiguous part of `s`, with only
      blanks cut off on either side, and no blank left at either end. */
  ghost predicate IsTrimOf(s: string, r: string)
  {
    && (r == [] || (!IsBlank(r[0]) && !IsBlank(r[|r| - 1])))
    && exists i :: TrimmedAt(s, r, i)
  }

  /** `ltrim()`: drops the leading blanks. */
  function TrimLeft(s: string): string
  {
    if |s| > 0 && IsBlank(s[0]) then TrimLeft(s[1..]) else s
  }

  /** `rtrim()`: drops the trailing blanks. */
  function TrimRight(s: string): string
  {
    if |s| > 0 && IsBlank(s[|s| - 1]) then TrimRight(s[..|s| - 1]) else s
  }

  /** `trim()`: drops the blanks at both ends. It never lengthens its
      input and leaves no blank at either end; `TrimIsTrimOf` states the
      whole characterisation. */
  function Trim(s: string): (r: string)
    ensures |r| <= |s|
    ensures r == [] || (!IsBlank(r[0]) && !IsBlank(r[|r| - 1]))
  {
    var t := TrimLeft(s);
    TrimLeftSpec(s);
    TrimRightSpec(t);
    var r := TrimRight(t);
    assert r != [] ==> r[0] == t[0];
    r
  }

  /** `ltrim()` keeps a suffix and cuts only blanks, up to a non-blank. */
  lemma {:induction false} TrimLeftSpec(s: string)
    ensures |TrimLeft(s)| <= |s| && TrimLeft(s) == s[|s| - |TrimLeft(s)|..]
    ensures AllBlank(s[..|s| - |TrimLeft(s)|])
    ensures TrimLeft(s) == [] || !IsBlank(TrimLeft(s)[0])
  {
    if |s| > 0 && IsBlank(s[0]) {
      var t := s[1..];
      TrimLeftSpec(t);
      var r := TrimLeft(t);
      var n := |s| - |r|;
      assert t[|t| - |r|..] == s[n..];
      var cut := t[..|t| - |r|];
      assert s[..n] == [s[0]] + cut;
      forall k | 0 <= k < n
        ensures IsBlank(s[..n][k])
      {
        if k > 0 {
          assert s[..n][k] == cut[k - 1];
        }
      }
    }
  }

  /** `rtrim()` keeps a prefix and cuts only blanks, back to a non-blank. */
  lemma {:induction false} TrimRightSpec(s: string)
    ensures |TrimRight(s)| <= |s| && TrimRight(s) == s[..|TrimRight(s)|]
    ensures AllBlank(s[|TrimRight(s)|..])
    ensures TrimRight(s) == [] || !IsBlank(TrimRight(s)[|TrimRight(s)| - 1])
  {
    if |s| > 0 && IsBlank(s[|s| - 1]) {
      var t := s[..|s| - 1];
      TrimRightSpec(t);
      var r := TrimRight(t);
      assert t[..|r|] == s[..|r|];
      var cut := t[|r|..];
      assert s[|r|..] == cut + [s[|s| - 1]];
      forall k | 0 <= k < |s| - |r|
        ensures IsBlank(s[|r|..][k])
      {
        if k < |cut| {
          assert s[|r|..][k] == cut[k];
        }
      }
    }
  }

  /** `Trim` meets its reference definition. */
  lemma TrimIsTrimOf(s: string)
    ensures IsTrimOf(s, Trim(s))
  {
    var t := TrimLeft(s);
    var r := TrimRight(t);
    TrimLeftSpec(s);
    TrimRightSpec(t);
    var i := |s| - |t|;
    assert s[i..i + |r|] == r;
    assert s[i + |r|..] == t[|r|..];
    assert TrimmedAt(s, r, i);
    assert r != [] ==> r[0] == t[0];
  }

  /** `TrimmedAt` spelt out position by position of `s`. */
  lemma TrimmedAtPositions(s: string, r: string, i: int)
    requires TrimmedAt(s, r, i)
    ensures forall j :: 0 <= j < i ==> IsBlank(s[j])
    ensures forall j :: i + |r| <= j < |s| ==> IsBlank(s[j])
    ensures forall j :: 0 <= j < |r| ==> s[i + j] == r[j]
  {
    forall j | 0 <= j < i
      ensures IsBlank(s[j])
    {
      assert s[..i][j] == s[j];
    }
    forall j | i + |r| <= j < |s|
      ensures IsBlank(s[j])
    {
      assert s[i + |r|..][j - i - |r|] == s[j];
    }
    forall j | 0 <= j < |r|
      ensures s[i + j] == r[j]
    {
      assert s[i..i + |r|][j] == s[i + j];
    }
  }

  /** There is only one way to trim a string, so `IsTrimOf` is a complete
      reference definition of `Trim`: a non-empty result starts at the first
      non-blank of `s` and ends after the last one. */
  lemma TrimOfUnique(s: string, r1: string, r2: string)
    requires IsTrimOf(s, r1) && IsTrimOf(s, r2)
    ensures r1 == r2
  {
    var i1 :| TrimmedAt(s, r1, i1);
    var i2 :| TrimmedAt(s, r2, i2);
    TrimmedAtPositions(s, r1, i1);
    TrimmedAtPositions(s, r2, i2);
    if r1 != [] {
      assert s[i1] == r1[0] && s[i1 + |r1| - 1] == r1[|r1| - 1];
    }
    if r2 != [] {
      assert s[i2] == r2[0] && s[i2 + |r2| - 1] == r2[|r2| - 1];
    }
    assert |r1| == |r2|;
    if r1 != [] {
      assert i1 == i2;
    }
  }

  /** Trimming twice is trimming once. */
  lemma TrimIdempotent(s: string)
    ensures Trim(Trim(s)) == Trim(s)
  {
    var r := Trim(s);
    TrimIsTrimOf(s);
    TrimIsTrimOf(r);
    assert r[0..0 + |r|] == r && r[..0] == [] && r[|r|..] == [];
    assert TrimmedAt(r, r, 0);
    TrimOfUnique(r, r, Trim(r));
  }

  /** The position of the first `c` in `s`, or `|s|` when there is none. */
  function FirstIndex(s: string, c: char): (i: nat)
    ensures i <= |s|
    ensures c !in s[..i]
    ensures i < |s| ==> s[i] == c
  {
    if |s| == 0 || s[0] == c then 0 else 1 + FirstIndex(s[1..], c)
  }

  /** The first `c` in `a + [c] + b` is the one after `a` when `a` has none. */
  lemma FirstIndexAfter(a: string, c: char, b: string)
    requires c !in a
    ensures FirstIndex(a + [c] + b, c) == |a|
  {
    var s := a + [c] + b;
    assert s[|a|] == c;
  }

  /** The position of the last `c` in `s`, or -1 when there is none. */
  function LastIndex(s: string, c: char): (i: int)
    ensures -1 <= i < |s|
    ensures c !in s[i + 1..]
    ensures 0 <= i ==> s[i] == c
  {
    if |s| == 0 then -1
    else if s[|s| - 1] == c then |s| - 1
    else LastIndex(s[..|s| - 1], c)
  }

  /** The last `c` in `a + [c] + b` is the one before `b` when `b` has none. */
  lemma LastIndexBefore(a: string, c: char, b: string)
    requires c !in b
    ensures LastIndex(a + [c] + b, c) == |a|
  {
    var s := a + [c] + b;
    assert s[|a|] == c;
  }

  /** `implode($d, $parts)`: the parts joined with the delimiter between them. */
  function Implode(d: char, parts: seq<string>): string
    requires |parts| > 0
  {
    if |parts| == 1 then parts[0] else parts[0] + [d] + Implode(d, parts[1..])
  }

  /** `explode($d, $s)`: the pieces of `s` between occurrences of `d`.
      There is always at least one piece (`explode(";", "")` is `[""]`),
      empty pieces are kept, and joining the pieces gives `s` back. */
  function Explode(d: char, s: string): (parts: seq<string>)
    ensures |parts| > 0
    ensures forall k :: 0 <= k < |parts| ==> d !in parts[k]
    ensures Implode(d, parts) == s
    decreases |s|
  {
    var i := FirstIndex(s, d);
    if i == |s| then
      assert s[..i] == s;
      [s]
    else
      var rest := Explode(d, s[i + 1..]);
      var parts := [s[..i]] + rest;
      assert parts[1..] == rest;
      assert s == s[..i] + [d] + s[i + 1..];
      parts
  }

  /** The converse round trip: exploding the join of delimiter-free parts
      gives back exactly those parts, in order. */
  lemma {:induction false} ExplodeImplode(d: char, parts: seq<string>)
    requires |parts| > 0
    requires forall k :: 0 <= k < |parts| ==> d !in parts[k]
    ensures Explode(d, Implode(d, parts)) == parts
  {
    var s := Implode(d, parts);
    if |parts| == 1 {
      assert d !in s;
      assert s[..|s|] == s;
    } else {
      var tail := Implode(d, parts[1..]);
      assert s == parts[0] + [d] + tail;
      FirstIndexAfter(parts[0], d, tail);
      var i := |parts[0]|;
      assert s[..i] == parts[0];
      assert s[i + 1..] == tail;
      ExplodeImplode(d, parts[1..]);
      assert Explode(d, s) == [parts[0]] + parts[1..];
    }
  }
}

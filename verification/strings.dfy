/** Small string and option helpers shared by the rule codec and the agent.
    Strings are `seq<char>`; the C library calls the code relies on
    (strncmp prefix tests, strstr, strchr, atoi) are written out here. */
module Strings {

  /** A value that may be missing, standing in for a C pointer that may be NULL. */
  datatype Option<+T> = None | Some(value: T) {
    function GetOr(default: T): T
    {
      match this
      case Some(v) => v
      case None => default
    }
  }

  /** `strncmp (s, p, |p|) == 0`: s starts with p. */
  predicate HasPrefix(s: string, p: string)
  {
    |p| <= |s| && s[..|p|] == p
  }

  /** `strstr (s, t) != NULL`: t occurs somewhere inside s. */
  predicate Contains(s: string, t: string)
    decreases |s|
  {
    HasPrefix(s, t) || (|s| > 0 && Contains(s[1..], t))
  }

  /** `strchr (s, c)`: the index of the first occurrence of c in s. */
  function IndexOf(s: string, c: char): (r: Option<nat>)
    ensures r.None? <==> c !in s
    ensures r.Some? ==> r.value < |s| && s[r.value] == c && c !in s[..r.value]
  {
    if |s| == 0 then None
    else if s[0] == c then Some(0)
    else
      match IndexOf(s[1..], c)
      case None => None
      case Some(i) =>
        assert s[1..][..i] == s[1..i + 1];
        assert s[..i + 1] == [s[0]] + s[1..i + 1];
        Some(i + 1)
  }

  /** The first occurrence found at i is where IndexOf stops. */
  lemma IndexOfAt(s: string, c: char, i: nat)
    requires i < |s| && s[i] == c && c !in s[..i]
    ensures IndexOf(s, c) == Some(i)
  {
    assert c in s[..i + 1] by { assert s[..i + 1][i] == c; }
  }

  /** The part of s after its last '/' (all of s when it holds no '/'),
      as `strrchr (s, '/') + 1` computes it. */
  function LastSegment(s: string): (r: string)
    ensures |r| <= |s| && s[|s| - |r|..] == r
    ensures '/' !in r
    ensures |r| < |s| ==> s[|s| - |r| - 1] == '/'
    decreases |s|
  {
    if |s| == 0 || s[|s| - 1] == '/' then []
    else
      var p := s[..|s| - 1];
      var q := LastSegment(p);
      assert s[|s| - |q| - 1..] == p[|p| - |q|..] + [s[|s| - 1]];
      q + [s[|s| - 1]]
  }

  /** Decimal digits of a natural number, as a JSON array index appears in a locator. */
  function NatToString(n: nat): (r: string)
    ensures |r| > 0 && '/' !in r
    ensures forall i :: 0 <= i < |r| ==> '0' <= r[i] <= '9'
  {
    var d := [(('0' as int) + n % 10) as char];
    if n < 10 then d else NatToString(n / 10) + d
  }

  /** The characters C's isspace accepts. */
  predicate IsSpace(c: char)
  {
    c == ' ' || c == '\t' || c == '\n' || c == '\U{B}' || c == '\U{C}' || c == '\r'
  }

  predicate IsDigit(c: char)
  {
    '0' <= c <= '9'
  }

  /** The white space atoi skips: what is left is a suffix that starts with
      a non-space, and everything skipped is white space. */
  function SkipSpace(s: string): (r: string)
    ensures |r| <= |s| && r == s[|s| - |r|..]
    ensures forall i :: 0 <= i < |s| - |r| ==> IsSpace(s[i])
    ensures |r| > 0 ==> !IsSpace(r[0])
  {
    if |s| > 0 && IsSpace(s[0]) then
      var r := SkipSpace(s[1..]);
      assert forall i :: 1 <= i < |s| - |r| ==> s[i] == s[1..][i - 1];
      r
    else s
  }

  /** White space in front of text that starts with a non-space is skipped,
      and nothing more. */
  lemma {:induction false} SkipSpaceOver(sp: string, t: string)
    requires forall i :: 0 <= i < |sp| ==> IsSpace(sp[i])
    requires |t| > 0 && !IsSpace(t[0])
    ensures SkipSpace(sp + t) == t
    decreases |sp|
  {
    if |sp| > 0 {
      assert (sp + t)[1..] == sp[1..] + t;
      SkipSpaceOver(sp[1..], t);
    } else {
      assert sp + t == t;
    }
  }

  /** Value of the run of decimal digits at the start of s, accumulated onto acc. */
  function DigitRun(s: string, acc: nat): nat
  {
    if |s| > 0 && IsDigit(s[0]) then DigitRun(s[1..], acc * 10 + (s[0] as int - '0' as int))
    else acc
  }

  /** Reading digits through a run of digits carries on into what follows. */
  lemma {:induction false} DigitRunAppend(ds: string, rest: string, acc: nat)
    requires forall i :: 0 <= i < |ds| ==> IsDigit(ds[i])
    ensures DigitRun(ds + rest, acc) == DigitRun(rest, DigitRun(ds, acc))
    decreases |ds|
  {
    if |ds| > 0 {
      assert (ds + rest)[0] == ds[0];
      assert (ds + rest)[1..] == ds[1..] + rest;
      DigitRunAppend(ds[1..], rest, acc * 10 + (ds[0] as int - '0' as int));
    } else {
      assert ds + rest == rest;
    }
  }

  /** The digits of n read back as n. */
  lemma {:induction false} DigitRunNat(n: nat)
    ensures DigitRun(NatToString(n), 0) == n
  {
    var d := [(('0' as int) + n % 10) as char];
    assert DigitRun(d, n / 10) == n by {
      assert d[1..] == [];
    }
    if n >= 10 {
      DigitRunNat(n / 10);
      DigitRunAppend(NatToString(n / 10), d, 0);
    } else {
      assert DigitRun(d, 0) == n by { assert d[1..] == []; }
    }
  }

  /** C's atoi: leading white space, an optional sign, then the longest run
      of digits; anything else ends the number, and no digits read as 0.
      Integers are unbounded here; atoi's behaviour on overflow is undefined. */
  function Atoi(s: string): (r: int)
    ensures var t := SkipSpace(s);
      && (r < 0 ==> |t| > 0 && t[0] == '-')
      && (t == [] || !(IsDigit(t[0]) || t[0] == '-' || t[0] == '+') ==> r == 0)
  {
    var t := SkipSpace(s);
    if |t| > 0 && t[0] == '-' then 0 - DigitRun(t[1..], 0)
    else if |t| > 0 && t[0] == '+' then DigitRun(t[1..], 0)
    else DigitRun(t, 0)
  }

  /** The numeral of n followed by a non-digit reads as n. */
  lemma DigitRunNumeral(n: nat, rest: string)
    requires rest == [] || !IsDigit(rest[0])
    ensures DigitRun(NatToString(n) + rest, 0) == n
  {
    DigitRunNat(n);
    DigitRunAppend(NatToString(n), rest, 0);
  }

  /** atoi reads back a decimal numeral after any white space, and stops at
      the first character that is not a digit. */
  lemma AtoiNumeral(sp: string, n: nat, rest: string)
    requires forall i :: 0 <= i < |sp| ==> IsSpace(sp[i])
    requires rest == [] || !IsDigit(rest[0])
    ensures Atoi(sp + NatToString(n) + rest) == n
  {
    var t := NatToString(n) + rest;
    DigitRunNumeral(n, rest);
    assert sp + NatToString(n) + rest == sp + t;
    SkipSpaceOver(sp, t);
  }

  /** A numeral with a minus sign reads as the negative number. */
  lemma AtoiNegative(sp: string, n: nat, rest: string)
    requires forall i :: 0 <= i < |sp| ==> IsSpace(sp[i])
    requires rest == [] || !IsDigit(rest[0])
    ensures Atoi(sp + "-" + NatToString(n) + rest) == -(n as int)
  {
    var u := NatToString(n) + rest;
    var t := ['-'] + u;
    DigitRunNumeral(n, rest);
    assert sp + "-" + NatToString(n) + rest == sp + t;
    SkipSpaceOver(sp, t);
    assert t[0] == '-' && t[1..] == u;
  }

  /** t occurs in s at position i. */
  predicate OccursAt(s: string, t: string, i: nat)
  {
    i + |t| <= |s| && s[i..i + |t|] == t
  }

  /** t occurs in s exactly when it occurs at some position. */
  lemma {:induction false} ContainsSlice(s: string, t: string)
    ensures Contains(s, t) <==> exists i: nat :: OccursAt(s, t, i)
    decreases |s|
  {
    if |s| > 0 {
      ContainsSlice(s[1..], t);
      if Contains(s[1..], t) {
        var j: nat :| OccursAt(s[1..], t, j);
        assert s[j + 1..j + 1 + |t|] == s[1..][j..j + |t|];
        assert OccursAt(s, t, j + 1);
      }
      if HasPrefix(s, t) {
        assert OccursAt(s, t, 0);
      }
      if exists i: nat :: OccursAt(s, t, i) {
        var i: nat :| OccursAt(s, t, i);
        if i > 0 {
          assert s[1..][i - 1..i - 1 + |t|] == s[i..i + |t|];
          assert OccursAt(s[1..], t, i - 1);
        }
      }
    } else {
      if HasPrefix(s, t) {
        assert OccursAt(s, t, 0);
      }
      if exists i: nat :: OccursAt(s, t, i) {
        var i: nat :| OccursAt(s, t, i);
        assert s[..|t|] == t;
      }
    }
  }
}

/**
  Failure-compatible wrappers shared by every module of the model.
  `None` stands for PHP's `null`/`false` "not found" returns; `Failure`
  stands for an exception or an aborted request.
 */
module Common {

  datatype Option<+T> = None | Some(value: T) {
    function GetOr(default: T): T {
      match this
      case Some(v) => v
      case None => default
    }
  }

  datatype Result<+R, +E> = Success(value: R) | Failure(error: E)
}

/**
  The handful of PHP string primitives the modelled code relies on:
  `strpos`, `strrpos`, `str_replace`, `Str::replaceFirst` and ASCII
  `strtolower`. Positions are 0-based, as in PHP.
 */
module Strings {
  import opened Common

  /** `sub` occurs in `s` starting at position `i`. */
  predicate OccursAt(s: string, sub: string, i: int) {
    0 <= i && i + |sub| <= |s| && s[i..i + |sub|] == sub
  }

  predicate Contains(s: string, sub: string) {
    exists i :: 0 <= i <= |s| && OccursAt(s, sub, i)
  }

  function IndexFrom(s: string, sub: string, k: nat): (r: Option<nat>)
    requires k <= |s|
    ensures r.Some? ==> k <= r.value && OccursAt(s, sub, r.value)
    ensures r.Some? ==> forall j :: k <= j < r.value ==> !OccursAt(s, sub, j)
    ensures r.None? ==> forall j :: k <= j ==> !OccursAt(s, sub, j)
    decreases |s| - k
  {
    if OccursAt(s, sub, k) then Some(k)
    else if k == |s| then None
    else IndexFrom(s, sub, k + 1)
  }

  /** PHP `strpos`: the first position where `sub` occurs, or `false`. */
  function IndexOf(s: string, sub: string): (r: Option<nat>)
    ensures r.Some? ==> OccursAt(s, sub, r.value)
    ensures r.Some? ==> forall j :: 0 <= j < r.value ==> !OccursAt(s, sub, j)
    ensures r.None? <==> !Contains(s, sub)
  {
    IndexFrom(s, sub, 0)
  }

  function LastFrom(s: string, sub: string, k: nat): (r: Option<nat>)
    requires k <= |s|
    ensures r.Some? ==> r.value <= k && OccursAt(s, sub, r.value)
    ensures r.Some? ==> forall j :: r.value < j <= k ==> !OccursAt(s, sub, j)
    ensures r.None? ==> forall j :: 0 <= j <= k ==> !OccursAt(s, sub, j)
  {
    if OccursAt(s, sub, k) then Some(k)
    else if k == 0 then None
    else LastFrom(s, sub, k - 1)
  }

  /** PHP `strrpos`: the last position where `sub` occurs, or `false`. */
  function LastIndexOf(s: string, sub: string): (r: Option<nat>)
    ensures r.Some? ==> OccursAt(s, sub, r.value)
    ensures r.Some? ==> forall j :: r.value < j ==> !OccursAt(s, sub, j)
    ensures r.None? <==> !Contains(s, sub)
  {
    LastFrom(s, sub, |s|)
  }

  /** An occurrence inside a suffix is an occurrence in the whole string. */
  lemma OccursInSuffix(s: string, sub: string, a: nat, k: int)
    requires a <= |s| && OccursAt(s[a..], sub, k)
    ensures OccursAt(s, sub, a + k)
  {
    assert s[a..][k..k + |sub|] == s[a + k..a + k + |sub|];
  }

  /** An occurrence inside a prefix is an occurrence in the whole string. */
  lemma OccursInPrefix(s: string, sub: string, a: nat, k: int)
    requires a <= |s| && OccursAt(s[..a], sub, k)
    ensures OccursAt(s, sub, k)
  {
    assert s[..a][k..k + |sub|] == s[k..k + |sub|];
  }

  /** Bolt's `Str::replaceFirst`: replace the first occurrence only. */
  function ReplaceFirst(s: string, from: string, to: string): (r: string)
    ensures !Contains(s, from) ==> r == s
    ensures Contains(s, from) ==>
      exists i :: OccursAt(s, from, i) && r == s[..i] + to + s[i + |from|..]
                && forall j :: 0 <= j < i ==> !OccursAt(s, from, j)
  {
    match IndexOf(s, from)
    case None => s
    case Some(i) => s[..i] + to + s[i + |from|..]
  }

  /**
    PHP `str_replace` with a non-empty search string: scans left to right
    and replaces non-overlapping occurrences.
   */
  function ReplaceAll(s: string, from: string, to: string): string
    requires |from| > 0
    decreases |s|
  {
    if |s| < |from| then s
    else if s[..|from|] == from then to + ReplaceAll(s[|from|..], from, to)
    else [s[0]] + ReplaceAll(s[1..], from, to)
  }

  /** Character-wise substitution, the reference meaning of a one-character `str_replace`. */
  function MapChar(s: string, a: char, b: char): (r: string)
    ensures |r| == |s|
    ensures forall i :: 0 <= i < |s| ==> r[i] == (if s[i] == a then b else s[i])
  {
    seq(|s|, i requires 0 <= i < |s| => if s[i] == a then b else s[i])
  }

  /** Replacing one character by another with `str_replace` is character-wise substitution. */
  lemma {:induction false} ReplaceCharIsMapChar(s: string, a: char, b: char)
    ensures ReplaceAll(s, [a], [b]) == MapChar(s, a, b)
    decreases |s|
  {
    if |s| == 0 {
    } else {
      ReplaceCharIsMapChar(s[1..], a, b);
      var tail := MapChar(s[1..], a, b);
      assert MapChar(s, a, b) == [if s[0] == a then b else s[0]] + tail;
    }
  }

  /** A string in which `from` does not occur is left unchanged by `str_replace`. */
  lemma {:induction false} ReplaceAllAbsent(s: string, from: string, to: string)
    requires |from| > 0
    requires !Contains(s, from)
    ensures ReplaceAll(s, from, to) == s
    decreases |s|
  {
    if |s| < |from| {
    } else {
      assert !OccursAt(s, from, 0);
      assert s[..|from|] != from;
      forall i | OccursAt(s[1..], from, i)
        ensures false
      {
        assert s[1..][i..i + |from|] == s[i + 1..i + 1 + |from|];
        assert OccursAt(s, from, i + 1);
      }
      ReplaceAllAbsent(s[1..], from, to);
    }
  }

  /**
    `str_replace` copies everything before the first occurrence of `from`,
    replaces that occurrence, and carries on after it.
   */
  lemma {:induction false} ReplaceAllAtFirst(a: string, from: string, to: string, b: string)
    requires |from| > 0
    requires forall i :: 0 <= i < |a| ==> !OccursAt(a + from + b, from, i)
    ensures ReplaceAll(a + from + b, from, to) == a + to + ReplaceAll(b, from, to)
    decreases |a|
  {
    var s := a + from + b;
    if |a| == 0 {
      assert s == from + b;
      assert s[..|from|] == from;
      assert s[|from|..] == b;
    } else {
      var rest := a[1..] + from + b;
      assert s[..|from|] != from by {
        assert !OccursAt(s, from, 0);
      }
      assert s[1..] == rest;
      assert ReplaceAll(s, from, to) == [s[0]] + ReplaceAll(rest, from, to);
      forall i | 0 <= i < |a[1..]|
        ensures !OccursAt(rest, from, i)
      {
        NoOccurrenceShifted(s, rest, from, i);
      }
      ReplaceAllAtFirst(a[1..], from, to, b);
      assert [s[0]] + a[1..] == a;
    }
  }

  /** Dropping the first character moves every occurrence one place to the left. */
  lemma NoOccurrenceShifted(s: string, rest: string, from: string, i: nat)
    requires |s| > 0 && rest == s[1..]
    requires !OccursAt(s, from, i + 1)
    ensures !OccursAt(rest, from, i)
  {
    if i + |from| <= |rest| {
      assert rest[i..i + |from|] == s[i + 1..i + 1 + |from|];
    }
  }

  predicate IsUpper(c: char) { 'A' <= c <= 'Z' }

  function LowerChar(c: char): char {
    if IsUpper(c) then (c as int + 32) as char else c
  }

  /** PHP `strtolower` on ASCII text. */
  function ToLower(s: string): (r: string)
    ensures |r| == |s|
    ensures forall i :: 0 <= i < |s| ==> r[i] == LowerChar(s[i])
    ensures forall i :: 0 <= i < |r| ==> !IsUpper(r[i])
  {
    seq(|s|, i requires 0 <= i < |s| => LowerChar(s[i]))
  }

  /** Lower-casing works piece by piece. */
  lemma ToLowerAppend(x: string, y: string)
    ensures ToLower(x + y) == ToLower(x) + ToLower(y)
  {
  }
}

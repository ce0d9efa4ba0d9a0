/** Finding sensor names in a rule expression (`extract_sensor_refs`, apps/linsightd/src/alerts.rs). */
module SensorRefs {

  predicate IsAlpha(c: char) { 'a' <= c <= 'z' || 'A' <= c <= 'Z' }
  predicate IsDigit(c: char) { '0' <= c <= '9' }
  predicate IsTokenChar(c: char) { IsAlpha(c) || IsDigit(c) || c == '.' || c == '_' }

  /** `expr[i..j]` consists of token characters and cannot be extended in either direction. */
  ghost predicate MaximalRun(expr: string, i: int, j: int)
  {
    && 0 <= i < j <= |expr|
    && (forall k | i <= k < j :: IsTokenChar(expr[k]))
    && (i > 0 ==> !IsTokenChar(expr[i - 1]))
    && (j < |expr| ==> !IsTokenChar(expr[j]))
  }

  /** Dotted and starting with a letter, so not a number. */
  predicate IsSensorToken(t: string) { '.' in t && t != "" && IsAlpha(t[0]) }

  /** `out` holds exactly the maximal dotted tokens that start with a letter. */
  ghost predicate AreRefs(expr: string, out: set<string>)
  {
    && (forall t | t in out :: IsSensorToken(t) && exists i, j :: MaximalRun(expr, i, j) && t == expr[i..j])
    && (forall i, j | MaximalRun(expr, i, j) && IsSensorToken(expr[i..j]) :: expr[i..j] in out)
  }

  // ---- references without the scanner -----------------------------------------------------------

  ghost predicate LetterCode(n: int) { 97 <= n <= 122 || 65 <= n <= 90 }

  /** A letter, a digit, '.' or '_', by its code. */
  ghost predicate TokenCode(n: int) { LetterCode(n) || 48 <= n <= 57 || n == 46 || n == 95 }

  /** `t` stands in the expression between `a` and `b`, neither of which continues it; it starts with a letter and
      has a dot. */
  ghost predicate Names(expr: string, a: string, t: string, b: string)
  {
    && expr == a + t + b && t != "" && LetterCode(t[0] as int)
    && (forall k | 0 <= k < |t| :: TokenCode(t[k] as int)) && (exists k :: 0 <= k < |t| && t[k] as int == 46)
    && (a != "" ==> !TokenCode(a[|a| - 1] as int)) && (b != "" ==> !TokenCode(b[0] as int))
  }

  /** Exactly the names that stand in an expression are its references. */
  lemma ReferencesExactly(expr: string, out: set<string>, t: string)
    requires AreRefs(expr, out)
    ensures t in out <==> exists a, b :: Names(expr, a, t, b)
  {
    if t in out { FoundIsNamed(expr, out, t); }
    if a, b :| Names(expr, a, t, b) { NamedIsRun(expr, a, t, b); }
  }

  lemma FoundIsNamed(expr: string, out: set<string>, t: string)
    requires AreRefs(expr, out) && t in out
    ensures exists a, b :: Names(expr, a, t, b)
  {
    var i, j :| MaximalRun(expr, i, j) && t == expr[i..j];
    RunIsNamed(expr, i, j);
  }

  lemma RunIsNamed(expr: string, i: nat, j: nat)
    requires MaximalRun(expr, i, j) && IsSensorToken(expr[i..j])
    ensures Names(expr, expr[..i], expr[i..j], expr[j..])
  {
    assert expr == expr[..i] + expr[i..j] + expr[j..];
    var k :| 0 <= k < j - i && expr[i..j][k] == '.';
    assert expr[i..j][k] as int == 46;
  }

  lemma NamedIsRun(expr: string, a: string, t: string, b: string)
    requires Names(expr, a, t, b)
    ensures MaximalRun(expr, |a|, |a| + |t|) && expr[|a|..|a| + |t|] == t && IsSensorToken(t)
  {
    Placed(expr, a, t, b);
    var k :| 0 <= k < |t| && t[k] as int == 46;
    assert t[k] == '.';
    var i, j := |a|, |a| + |t|;
    forall k | i <= k < j ensures IsTokenChar(expr[k]) { assert TokenCode(t[k - i] as int); }
  }

  lemma Placed(expr: string, a: string, t: string, b: string)
    requires expr == a + t + b
    ensures expr[|a|..|a| + |t|] == t && forall k | |a| <= k < |a| + |t| :: expr[k] == t[k - |a|]
    ensures a != "" ==> expr[|a| - 1] == a[|a| - 1]
    ensures b != "" ==> expr[|a| + |t|] == b[0]
  {
  }

  // ---- the scanner ------------------------------------------------------------------------------

  /** Everything found among the runs that end before position `n`. */
  ghost predicate FoundUpTo(expr: string, n: nat, out: set<string>)
  {
    && n <= |expr|
    && (forall t | t in out :: IsSensorToken(t) && exists i, j :: MaximalRun(expr, i, j) && j < n && t == expr[i..j])
    && (forall i, j | MaximalRun(expr, i, j) && j < n && IsSensorToken(expr[i..j]) :: expr[i..j] in out)
  }

  /** The token being read started at `start` and reaches up to `n`. */
  ghost predicate Scanning(expr: string, start: nat, n: nat)
  {
    && start <= n <= |expr|
    && (forall k | start <= k < n :: IsTokenChar(expr[k]))
    && (start > 0 ==> !IsTokenChar(expr[start - 1]))
  }

  /** Everything known when the first `n` characters have been read. */
  ghost predicate Progress(expr: string, start: nat, n: nat, current: string, out: set<string>)
  {
    Scanning(expr, start, n) && current == expr[start..n] && FoundUpTo(expr, n, out)
  }

  method ExtractSensorRefs(expr: string) returns (out: set<string>)
    ensures AreRefs(expr, out)
  {
    out := {};
    var current := "";
    ghost var start := 0;
    for n := 0 to |expr|
      invariant Progress(expr, start, n, current, out)
    {
      current, out, start := ReadChar(expr, n, current, out, start);
    }
    ghost var before := out;
    if IsSensorToken(current) { out := out + {current}; }
    LastRun(expr, start, before, out);
  }

  /** One turn of the loop: the token grows, or ends and is kept if it names a sensor. */
  method ReadChar(expr: string, n: nat, token: string, found: set<string>, ghost from: nat)
    returns (current: string, out: set<string>, ghost start: nat)
    requires n < |expr| && Progress(expr, from, n, token, found)
    ensures Progress(expr, start, n + 1, current, out)
  {
    current, out, start := token, found, from;
    if IsTokenChar(expr[n]) {
      current := current + [expr[n]];
      TokenGrows(expr, n, token, found, from);
    } else {
      if IsSensorToken(current) { out := out + {current}; }
      current, start := "", n + 1;
      TokenEnds(expr, n, token, found, from);
    }
  }

  lemma TokenGrows(expr: string, n: nat, token: string, found: set<string>, from: nat)
    requires n < |expr| && Progress(expr, from, n, token, found) && IsTokenChar(expr[n])
    ensures Progress(expr, from, n + 1, token + [expr[n]], found)
  {
    RunsEndingAt(expr, from, n, found, found);
    assert token + [expr[n]] == expr[from..n + 1];
  }

  lemma TokenEnds(expr: string, n: nat, token: string, found: set<string>, from: nat)
    requires n < |expr| && Progress(expr, from, n, token, found) && !IsTokenChar(expr[n])
    ensures Progress(expr, n + 1, n + 1, "", if IsSensorToken(token) then found + {token} else found)
  {
    RunsEndingAt(expr, from, n, found, if IsSensorToken(token) then found + {token} else found);
  }

  /** Only the run that began at `start` can end at position `n`, and it does so exactly at a separator. */
  lemma RunsEndingAt(expr: string, start: nat, n: nat, before: set<string>, out: set<string>)
    requires Scanning(expr, start, n) && n < |expr| && FoundUpTo(expr, n, before)
    requires out == if !IsTokenChar(expr[n]) && IsSensorToken(expr[start..n]) then before + {expr[start..n]} else before
    ensures FoundUpTo(expr, n + 1, out)
  {
    forall i, j | MaximalRun(expr, i, j) && j < n + 1 && IsSensorToken(expr[i..j]) ensures expr[i..j] in out {
      if j == n { RunStart(expr, start, n, i); }
    }
    forall t | t in out
      ensures IsSensorToken(t) && exists i, j :: MaximalRun(expr, i, j) && j < n + 1 && t == expr[i..j]
    {
      if t in before {
        var i, j :| MaximalRun(expr, i, j) && j < n && t == expr[i..j];
        assert MaximalRun(expr, i, j) && j < n + 1;
      } else {
        assert MaximalRun(expr, start, n);
      }
    }
  }

  lemma RunStart(expr: string, start: nat, n: nat, i: nat)
    requires Scanning(expr, start, n) && MaximalRun(expr, i, n)
    ensures i == start
  {
  }

  lemma LastRun(expr: string, start: nat, before: set<string>, out: set<string>)
    requires Scanning(expr, start, |expr|) && FoundUpTo(expr, |expr|, before)
    requires out == if IsSensorToken(expr[start..|expr|]) then before + {expr[start..|expr|]} else before
    ensures AreRefs(expr, out)
  {
    forall i, j | MaximalRun(expr, i, j) && IsSensorToken(expr[i..j]) ensures expr[i..j] in out {
      if j == |expr| { RunStart(expr, start, j, i); }
    }
    forall t | t in out ensures IsSensorToken(t) && exists i, j :: MaximalRun(expr, i, j) && t == expr[i..j] {
      if t in before {
        var i, j :| MaximalRun(expr, i, j) && j < |expr| && t == expr[i..j];
      } else {
        assert MaximalRun(expr, start, |expr|);
      }
    }
  }
}

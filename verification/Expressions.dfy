/** What rewriting does to a whole rule expression (`upsert_rule`, apps/linsightd/src/alerts.rs): meant for
    the sensor names in it, it replaces every dot. */
module Expressions {
  import opened AlertContext
  import opened SensorRefs

  /** Position `i` lies in a maximal run of token characters that names a sensor. */
  ghost predicate InSensorToken(expr: string, i: nat)
  {
    exists a, b :: TokenAround(expr, a, b, i) && IsSensorToken(expr[a..b])
  }

  ghost predicate TokenAround(expr: string, a: int, b: int, i: nat) { MaximalRun(expr, a, b) && a <= i < b }

  /** The expression from position `i` on, with only the dots of sensor names rewritten. */
  ghost function RewriteNames(expr: string, i: nat): string
    requires i <= |expr|
    decreases |expr| - i
  {
    if i == |expr| then ""
    else (if expr[i] == '.' && InSensorToken(expr, i) then "__" else [expr[i]]) + RewriteNames(expr, i + 1)
  }

  /** Every dot from position `i` on belongs to a sensor name. */
  ghost predicate DotsInNames(expr: string, i: nat)
  {
    forall k | i <= k < |expr| && expr[k] == '.' :: InSensorToken(expr, k)
  }

  lemma {:induction false} RewriteFrom(expr: string, i: nat)
    requires i <= |expr|
    ensures |RewriteNames(expr, i)| <= |Rewrite(expr[i..])|
    ensures DotsInNames(expr, i) ==> RewriteNames(expr, i) == Rewrite(expr[i..])
    ensures !DotsInNames(expr, i) ==> |RewriteNames(expr, i)| < |Rewrite(expr[i..])|
    decreases |expr| - i
  {
    if i == |expr| {
    } else {
      RewriteFrom(expr, i + 1);
      assert expr[i..][1..] == expr[i + 1..];
      assert DotsInNames(expr, i) <==> DotsInNames(expr, i + 1) && (expr[i] == '.' ==> InSensorToken(expr, i));
    }
  }

  /** Rewriting an expression rewrites its sensor names and nothing else if and only if every dot in it
      belongs to a sensor name. */
  lemma {:induction false} OnlyNamesRewrittenExactly(expr: string)
    ensures Rewrite(expr) == RewriteNames(expr, 0) <==> DotsInNames(expr, 0)
  {
    RewriteFrom(expr, 0);
    assert expr[0..] == expr;
  }

  /** Overlapping maximal runs are one run. */
  lemma OneRun(expr: string, a: int, b: int, c: int, d: int, i: nat)
    requires TokenAround(expr, a, b, i) && TokenAround(expr, c, d, i)
    ensures a == c && b == d
  {
  }

  /** A dotted run that does not name a sensor, such as a decimal literal, is damaged: the comparison with
      85.5 becomes one with the name 85__5. */
  lemma {:induction false} LiteralsAreRewritten(expr: string, a: int, b: int)
    requires MaximalRun(expr, a, b) && '.' in expr[a..b] && !IsSensorToken(expr[a..b])
    ensures Rewrite(expr) != RewriteNames(expr, 0)
  {
    var k :| 0 <= k < |expr[a..b]| && expr[a..b][k] == '.';
    var i := a + k;
    assert TokenAround(expr, a, b, i) && expr[i] == '.';
    forall c, d | TokenAround(expr, c, d, i) ensures !IsSensorToken(expr[c..d]) { OneRun(expr, a, b, c, d, i); }
    assert !InSensorToken(expr, i);
    OnlyNamesRewrittenExactly(expr);
  }
}

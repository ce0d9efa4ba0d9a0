/** The values the alert engine evaluates rules against (apps/linsightd/src/alerts.rs): the latest value
    per sensor, and the evaluation context that holds the same values under names in which every '.' is
    written "__". The context is maintained incrementally and rebuilt only when values are pruned. */
module AlertContext {
  import opened Prelude

  const VALUES_CAP: nat := 4096

  type Values = map<string, real>
  type Context = map<string, real>

  // ---- rewriting names --------------------------------------------------------------------------

  /** `s.replace('.', "__")` */
  function Rewrite(s: string): string
  {
    if s == "" then "" else (if s[0] == '.' then "__" else [s[0]]) + Rewrite(s[1..])
  }

  /** Reads "__" back as '.', from the left. */
  ghost function Restore(t: string): string
  {
    if t == "" then ""
    else if |t| >= 2 && t[0] == '_' && t[1] == '_' then "." + Restore(t[2..])
    else [t[0]] + Restore(t[1..])
  }

  /** No underscore is followed by another underscore or by a dot. Ids whose dot-separated segments are
      non-empty and have no leading, trailing or doubled underscore are of this form. */
  ghost predicate Unambiguous(s: string)
  {
    forall i | 0 <= i < |s| - 1 && s[i] == '_' :: s[i + 1] != '_' && s[i + 1] != '.'
  }

  lemma {:induction false} RewriteHasNoDot(s: string)
    ensures '.' !in Rewrite(s)
  {
    if s == "" {
    } else {
      RewriteHasNoDot(s[1..]);
    }
  }

  lemma {:induction false} RewriteAppend(a: string, b: string)
    ensures Rewrite(a + b) == Rewrite(a) + Rewrite(b)
  {
    if a == "" {
      assert a + b == b;
    } else {
      assert (a + b)[1..] == a[1..] + b;
      RewriteAppend(a[1..], b);
    }
  }

  lemma {:induction false} RestoreIsUnambiguous(t: string)
    requires '.' !in t
    ensures Unambiguous(Restore(t))
    ensures t != "" ==> Restore(t) != ""
    ensures t != "" && t[0] != '_' ==> Restore(t)[0] == t[0]
  {
    if t == "" {
    } else if |t| >= 2 && t[0] == '_' && t[1] == '_' {
      RestoreIsUnambiguous(t[2..]);
    } else {
      RestoreIsUnambiguous(t[1..]);
      if |t| >= 2 && t[0] == '_' { assert t[1..][0] == t[1]; }
    }
  }

  lemma {:induction false} RewriteUndoesRestore(t: string)
    requires '.' !in t
    ensures Rewrite(Restore(t)) == t
  {
    if t == "" {
    } else if |t| >= 2 && t[0] == '_' && t[1] == '_' {
      RewriteUndoesRestore(t[2..]);
      assert t == "__" + t[2..];
      assert ("." + Restore(t[2..]))[1..] == Restore(t[2..]);
    } else {
      RewriteUndoesRestore(t[1..]);
      assert ([t[0]] + Restore(t[1..]))[1..] == Restore(t[1..]);
    }
  }

  lemma {:induction false} RestoreUndoesRewrite(s: string)
    requires Unambiguous(s)
    ensures Restore(Rewrite(s)) == s
  {
    if s == "" {
    } else {
      var rest := s[1..];
      assert Unambiguous(rest) by {
        forall i | 0 <= i < |rest| - 1 && rest[i] == '_' ensures rest[i + 1] != '_' && rest[i + 1] != '.' {
          assert s[i + 1] == '_';
        }
      }
      RestoreUndoesRewrite(rest);
      var t := Rewrite(s);
      if s[0] == '.' {
        assert t == "__" + Rewrite(rest) && t[2..] == Rewrite(rest);
      } else {
        assert t == [s[0]] + Rewrite(rest) && t[1..] == Rewrite(rest);
        if s[0] == '_' && rest != "" { assert t[1] == rest[0] != '_'; }
      }
    }
  }

  /** Exactly the unambiguous names survive rewriting: each has a rewritten name of its own, and every
      other name shares its rewritten name with an unambiguous one. */
  lemma {:induction false} RewriteInjectiveExactly(s: string)
    ensures forall s' | Unambiguous(s) && Unambiguous(s') && Rewrite(s) == Rewrite(s') :: s == s'
    ensures !Unambiguous(s) ==>
              var twin := Restore(Rewrite(s));
              twin != s && Unambiguous(twin) && Rewrite(twin) == Rewrite(s)
  {
    forall s' | Unambiguous(s) && Unambiguous(s') && Rewrite(s) == Rewrite(s') ensures s == s' {
      RestoreUndoesRewrite(s);
      RestoreUndoesRewrite(s');
    }
    RewriteHasNoDot(s);
    RestoreIsUnambiguous(Rewrite(s));
    RewriteUndoesRestore(Rewrite(s));
  }

  /** A whole expression is rewritten, not only the sensor names in it: decimal literals change too. */
  lemma {:induction false} DecimalsAreRewritten(whole: string, fraction: string)
    requires '.' !in whole && '.' !in fraction
    ensures Rewrite(whole + "." + fraction) == whole + "__" + fraction
  {
    RewriteKeepsUndotted(whole);
    RewriteKeepsUndotted(fraction);
    assert "."[1..] == "";
    RewriteAppend(whole + ".", fraction);
    RewriteAppend(whole, ".");
  }

  lemma {:induction false} RewriteKeepsUndotted(s: string)
    requires '.' !in s
    ensures Rewrite(s) == s
  {
    if s == "" {
    } else {
      RewriteKeepsUndotted(s[1..]);
    }
  }

  // ---- values and context -----------------------------------------------------------------------

  function Pruned(values: Values, referenced: set<string>): Values
  {
    map k | k in values && k in referenced :: values[k]
  }

  predicate NeedsPrune(values: Values, id: string)
  {
    id !in values && |values| >= VALUES_CAP
  }

  function ValuesAfter(values: Values, referenced: set<string>, id: string, v: real): Values
  {
    (if NeedsPrune(values, id) then Pruned(values, referenced) else values)[id := v]
  }

  /** Every name in the context is the rewritten name of a known sensor and carries one's value. */
  ghost predicate Backed(ctx: Context, values: Values)
  {
    && (forall k | k in values :: Rewrite(k) in ctx)
    && (forall c | c in ctx :: exists k :: k in values && Rewrite(k) == c && values[k] == ctx[c])
  }

  /** The context is exactly the rewritten image of the values. */
  ghost predicate IsImage(ctx: Context, values: Values)
  {
    Backed(ctx, values) && forall k | k in values :: ctx[Rewrite(k)] == values[k]
  }

  ghost predicate AllUnambiguous(values: Values)
  {
    forall k | k in values :: Unambiguous(k)
  }

  /** Among unambiguous sensor names a backed context is the exact image. */
  lemma BackedIsImage(ctx: Context, values: Values)
    requires Backed(ctx, values) && AllUnambiguous(values)
    ensures IsImage(ctx, values)
  {
    forall k | k in values ensures ctx[Rewrite(k)] == values[k] {
      var j :| j in values && Rewrite(j) == Rewrite(k) && values[j] == ctx[Rewrite(k)];
      RewriteInjectiveExactly(k);
    }
  }

  lemma {:induction false} SetKeepsBacked(ctx: Context, values: Values, id: string, v: real)
    requires Backed(ctx, values)
    ensures Backed(ctx[Rewrite(id) := v], values[id := v])
  {
    var ctx', values' := ctx[Rewrite(id) := v], values[id := v];
    forall c | c in ctx' ensures exists k :: k in values' && Rewrite(k) == c && values'[k] == ctx'[c] {
      if c == Rewrite(id) {
        assert id in values' && values'[id] == ctx'[c];
      } else {
        var k :| k in values && Rewrite(k) == c && values[k] == ctx[c];
        assert k in values' && values'[k] == ctx'[c];
      }
    }
  }

  // ---- bounds over a run ------------------------------------------------------------------------

  ghost function ValuesOver(values: Values, referenced: set<string>, observed: seq<(string, real)>): Values
  {
    if observed == [] then values
    else
      var (id, v) := observed[|observed| - 1];
      ValuesAfter(ValuesOver(values, referenced, observed[..|observed| - 1]), referenced, id, v)
  }

  ghost function Bound(referenced: set<string>): nat
  {
    if |referenced| + 1 > 4096 then |referenced| + 1 else 4096
  }

  /** For a fixed rule set the table never outgrows max(4096, referenced + 1). */
  lemma {:induction false} ValuesStayBounded(referenced: set<string>, observed: seq<(string, real)>)
    ensures |ValuesOver(map[], referenced, observed)| <= Bound(referenced)
  {
    if observed == [] {
    } else {
      var (id, v) := observed[|observed| - 1];
      ValuesStayBounded(referenced, observed[..|observed| - 1]);
      ValuesStepBounded(ValuesOver(map[], referenced, observed[..|observed| - 1]), referenced, id, v);
    }
  }

  lemma ValuesStepBounded(values: Values, referenced: set<string>, id: string, v: real)
    requires |values| <= Bound(referenced)
    ensures |ValuesAfter(values, referenced, id, v)| <= Bound(referenced)
  {
    var kept := if NeedsPrune(values, id) then Pruned(values, referenced) else values;
    assert kept[id := v].Keys == kept.Keys + {id};
    if NeedsPrune(values, id) {
      assert kept.Keys <= referenced;
      SubsetSize(kept.Keys, referenced);
    } else if id in values {
      assert kept.Keys + {id} == kept.Keys;
    }
  }

  lemma {:induction false} SubsetSize<T>(a: set<T>, b: set<T>)
    requires a <= b
    ensures |a| <= |b|
  {
    if a == {} {
    } else {
      var x :| x in a;
      SubsetSize(a - {x}, b - {x});
    }
  }

  /** While fewer than 4096 sensors are known, or for a known sensor, nothing is forgotten; otherwise exactly the
      sensors no rule refers to are. */
  lemma ForgottenExactly(values: Values, referenced: set<string>, id: string, v: real, k: string)
    requires k != id
    ensures var after := ValuesAfter(values, referenced, id, v);
            && after[id] == v
            && (k in after <==> k in values && (k in referenced || id in values || |values| < 4096))
            && (k in after ==> after[k] == values[k])
  {
  }

  /** A sensor some rule refers to is never forgotten, and its value is the latest one observed. */
  lemma {:induction false} ReferencedSurvive(referenced: set<string>, observed: seq<(string, real)>, i: nat)
    requires i < |observed| && observed[i].0 in referenced
    requires forall j | i < j < |observed| :: observed[j].0 != observed[i].0
    ensures var values := ValuesOver(map[], referenced, observed);
            observed[i].0 in values && values[observed[i].0] == observed[i].1
  {
    if i < |observed| - 1 {
      var front := observed[..|observed| - 1];
      ReferencedSurvive(referenced, front, i);
    }
  }
}

/** What several components share: optional values, least elements, ascending enumerations. */
module Prelude {

  datatype Option<+T> = None | Some(value: T)

  type Byte = b: int | 0 <= b < 256

  function Pow2(n: nat): nat { if n == 0 then 1 else 2 * Pow2(n - 1) }

  ghost predicate Distinct<T(!new)>(s: seq<T>)
  {
    forall i, j | 0 <= i < j < |s| :: s[i] != s[j]
  }

  lemma Member<T>(s: set<T>) returns (x: T)
    requires s != {}
    ensures x in s
  {
    x :| x in s;
  }

  lemma Associate<T>(a: seq<T>, b: seq<T>, c: seq<T>)
    ensures a + b + c == a + (b + c)
  {
  }

  predicate IsLeast(m: int, s: set<int>)
  {
    m in s && forall p | p in s :: m <= p
  }

  lemma {:induction false} LeastExists(s: set<int>)
    requires s != {}
    ensures exists m :: IsLeast(m, s)
  {
    var x := Member(s);
    var rest := s - {x};
    if rest == {} {
      assert forall p | p in s :: p == x || p in rest;
      assert IsLeast(x, s);
    } else {
      LeastExists(rest);
      var m :| IsLeast(m, rest);
      assert forall p | p in s :: p == x || p in rest;
      assert IsLeast(if m <= x then m else x, s);
    }
  }

  function Least(s: set<int>): (m: int)
    requires s != {}
    ensures IsLeast(m, s)
  {
    LeastExists(s);
    var m :| m in s && IsLeast(m, s);
    m
  }

  ghost predicate StrictlyAscending(s: seq<int>)
  {
    forall i, j | 0 <= i < j < |s| :: s[i] < s[j]
  }

  /** The elements of a set in ascending order, each once. */
  function Ascending(s: set<int>): (r: seq<int>)
    ensures StrictlyAscending(r)
    ensures forall x :: x in r <==> x in s
    ensures |r| == |s|
  {
    if s == {} then []
    else
      var m := Least(s);
      var rest := Ascending(s - {m});
      assert forall x | x in rest :: x in s && x != m;
      [m] + rest
  }
}

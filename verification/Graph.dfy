/** Directed graphs as successor lists. A successor without an entry of its own is a leaf. */
module Graph {
  type Graph = map<string, seq<string>>

  predicate Edge(g: Graph, a: string, b: string) {
    a in g && b in g[a]
  }

  ghost predicate Walk(g: Graph, p: seq<string>) {
    p != [] && forall i :: 0 <= i < |p| - 1 ==> Edge(g, p[i], p[i + 1])
  }

  /** There is a walk of zero or more edges from `a` to `b`. */
  ghost predicate Reaches(g: Graph, a: string, b: string) {
    exists p :: Walk(g, p) && p[0] == a && p[|p| - 1] == b
  }

  /** There is a walk of at least one edge from `a` to `b`. */
  ghost predicate Leads(g: Graph, a: string, b: string) {
    exists m :: Edge(g, a, m) && Reaches(g, m, b)
  }

  ghost predicate Acyclic(g: Graph) {
    forall a :: a in g ==> !Leads(g, a, a)
  }

  lemma ReachesSelf(g: Graph, a: string)
    ensures Reaches(g, a, a)
  {
    assert Walk(g, [a]);
  }

  lemma ReachesTransitive(g: Graph, a: string, b: string, c: string)
    requires Reaches(g, a, b) && Reaches(g, b, c)
    ensures Reaches(g, a, c)
  {
    var p :| Walk(g, p) && p[0] == a && p[|p| - 1] == b;
    var q :| Walk(g, q) && q[0] == b && q[|q| - 1] == c;
    var r := p + q[1..];
    forall i | 0 <= i < |r| - 1 ensures Edge(g, r[i], r[i + 1]) {
      if i >= |p| - 1 {
        assert r[i] == q[i - (|p| - 1)] && r[i + 1] == q[i + 1 - (|p| - 1)];
      }
    }
    assert Walk(g, r) && r[0] == a && r[|r| - 1] == c;
  }

  lemma EdgeReaches(g: Graph, a: string, b: string)
    requires Edge(g, a, b)
    ensures Reaches(g, a, b) && Leads(g, a, b)
  {
    assert Walk(g, [a, b]);
    ReachesSelf(g, b);
  }

  lemma LeadsThenReaches(g: Graph, a: string, b: string, c: string)
    requires Leads(g, a, b) && Reaches(g, b, c)
    ensures Leads(g, a, c)
  {
    var m :| Edge(g, a, m) && Reaches(g, m, b);
    ReachesTransitive(g, m, b, c);
  }

  /** A walk is empty or starts with an edge. */
  lemma ReachesCases(g: Graph, a: string, b: string)
    requires Reaches(g, a, b)
    ensures a == b || Leads(g, a, b)
  {
    var p :| Walk(g, p) && p[0] == a && p[|p| - 1] == b;
    if |p| > 1 {
      var q := p[1..];
      assert Walk(g, q) && q[0] == p[1] && q[|q| - 1] == b;
      assert Edge(g, a, p[1]);
    }
  }

  ghost predicate ClosedUnder(g: Graph, s: set<string>) {
    forall a, b :: a in s && Edge(g, a, b) ==> b in s
  }

  /** Nothing outside a closed set can be reached from inside it. */
  lemma ClosedSetConfines(g: Graph, s: set<string>, a: string, b: string)
    requires ClosedUnder(g, s) && a in s && Reaches(g, a, b)
    ensures b in s
  {
    var p :| Walk(g, p) && p[0] == a && p[|p| - 1] == b;
    WalkStaysInside(g, s, p, |p| - 1);
  }

  lemma {:induction false} WalkStaysInside(g: Graph, s: set<string>, p: seq<string>, k: nat)
    requires ClosedUnder(g, s) && Walk(g, p) && p[0] in s && k < |p|
    ensures p[k] in s
  {
    if k > 0 {
      WalkStaysInside(g, s, p, k - 1);
      assert Edge(g, p[k - 1], p[k - 1 + 1]);
    }
  }
}

/** Walks as sequences of edges, enumerated by length. */
module GraphWalks {
  import opened KnowledgeGraph

  type Walk = seq<Edge>

  /** The node a walk from `s` stands on after `i` edges. */
  function Vertex(s: string, w: Walk, i: nat): string
    requires i <= |w|
  {
    if i == 0 then s else w[i - 1].target
  }

  function End(s: string, w: Walk): string {
    Vertex(s, w, |w|)
  }

  /** Every edge is in the table and leaves where the walk stands before it. */
  ghost predicate IsWalk(edges: seq<Edge>, s: string, w: Walk) {
    forall i | 0 <= i < |w| :: w[i] in edges && w[i].source == Vertex(s, w, i)
  }

  ghost predicate Joins(edges: seq<Edge>, s: string, w: Walk, t: string) {
    IsWalk(edges, s, w) && End(s, w) == t
  }

  ghost predicate Distinct<T>(s: seq<T>) {
    forall i, j | 0 <= i < j < |s| :: s[i] != s[j]
  }

  lemma WalkSnoc(edges: seq<Edge>, s: string, w: Walk, e: Edge)
    ensures IsWalk(edges, s, w + [e]) <==> IsWalk(edges, s, w) && e in edges && e.source == End(s, w)
    ensures End(s, w + [e]) == e.target
  {
    var x := w + [e];
    assert forall i | 0 <= i <= |w| :: Vertex(s, x, i) == Vertex(s, w, i);
    if IsWalk(edges, s, x) {
      assert forall i | 0 <= i < |w| :: x[i] == w[i];
      assert x[|w|] == e;
    }
  }

  lemma {:induction false} OutEdgesMembers(edges: seq<Edge>, v: string, e: Edge)
    ensures e in OutEdges(edges, v) <==> e in edges && e.source == v
  {
    if edges != [] {
      OutEdgesMembers(edges[1..], v, e);
    }
  }

  lemma {:induction false} OutEdgesDistinct(edges: seq<Edge>, v: string)
    requires UniqueEdges(edges)
    ensures Distinct(OutEdges(edges, v))
  {
    if edges != [] {
      OutEdgesDistinct(edges[1..], v);
      OutEdgesMembers(edges[1..], v, edges[0]);
    }
  }

  // ----- enumerating all walks of a given length -----

  function Extend(w: Walk, out: seq<Edge>): seq<Walk> {
    if out == [] then [] else [w + [out[0]]] + Extend(w, out[1..])
  }

  function ExtendAll(edges: seq<Edge>, s: string, ws: seq<Walk>): seq<Walk> {
    if ws == [] then [] else Extend(ws[0], OutEdges(edges, End(s, ws[0]))) + ExtendAll(edges, s, ws[1..])
  }

  function WalksOf(edges: seq<Edge>, s: string, d: nat): seq<Walk> {
    if d == 0 then [[]] else ExtendAll(edges, s, WalksOf(edges, s, d - 1))
  }

  lemma {:induction false} ExtendMembers(w: Walk, out: seq<Edge>, x: Walk, e: Edge)
    ensures x + [e] in Extend(w, out) <==> x == w && e in out
  {
    if out != [] {
      ExtendMembers(w, out[1..], x, e);
      assert (x + [e])[|x|] == e && (x + [e])[..|x|] == x;
      assert (w + [out[0]])[|w|] == out[0] && (w + [out[0]])[..|w|] == w;
    }
  }

  lemma {:induction false} NonemptyExtend(v: Walk, out: seq<Edge>, w: Walk)
    ensures w in Extend(v, out) ==> w != []
  {
    if out != [] {
      NonemptyExtend(v, out[1..], w);
    }
  }

  lemma {:induction false} NonemptyExtendAll(edges: seq<Edge>, s: string, ws: seq<Walk>, w: Walk)
    ensures w in ExtendAll(edges, s, ws) ==> w != []
  {
    if ws != [] {
      NonemptyExtend(ws[0], OutEdges(edges, End(s, ws[0])), w);
      NonemptyExtendAll(edges, s, ws[1..], w);
    }
  }

  lemma {:induction false} ExtendAllMembers(edges: seq<Edge>, s: string, ws: seq<Walk>, x: Walk, e: Edge)
    ensures x + [e] in ExtendAll(edges, s, ws) <==> x in ws && e in edges && e.source == End(s, x)
  {
    if ws != [] {
      ExtendMembers(ws[0], OutEdges(edges, End(s, ws[0])), x, e);
      OutEdgesMembers(edges, End(s, ws[0]), e);
      ExtendAllMembers(edges, s, ws[1..], x, e);
    }
  }

  /** `ws` holds exactly the walks of length `d`. */
  ghost predicate AreWalks(edges: seq<Edge>, s: string, d: nat, ws: seq<Walk>) {
    forall w :: w in ws <==> IsWalk(edges, s, w) && |w| == d
  }

  lemma NextWalks(edges: seq<Edge>, s: string, d: nat, ws: seq<Walk>)
    requires AreWalks(edges, s, d, ws)
    ensures AreWalks(edges, s, d + 1, ExtendAll(edges, s, ws))
  {
    forall w
      ensures w in ExtendAll(edges, s, ws) <==> IsWalk(edges, s, w) && |w| == d + 1
    {
      if w == [] {
        NonemptyExtendAll(edges, s, ws, w);
      } else {
        var x, e := w[..|w| - 1], w[|w| - 1];
        assert w == x + [e];
        ExtendAllMembers(edges, s, ws, x, e);
        WalkSnoc(edges, s, x, e);
      }
    }
  }

  lemma {:induction false} WalksOfMembers(edges: seq<Edge>, s: string, d: nat)
    ensures AreWalks(edges, s, d, WalksOf(edges, s, d))
  {
    if d > 0 {
      WalksOfMembers(edges, s, d - 1);
      NextWalks(edges, s, d - 1, WalksOf(edges, s, d - 1));
    }
  }

  lemma {:induction false} ExtendDistinct(w: Walk, out: seq<Edge>)
    requires Distinct(out)
    ensures Distinct(Extend(w, out))
  {
    if out != [] {
      ExtendDistinct(w, out[1..]);
      ExtendMembers(w, out[1..], w, out[0]);
      assert out[0] !in out[1..];
    }
  }

  lemma {:induction false} ExtendAllDistinct(edges: seq<Edge>, s: string, ws: seq<Walk>)
    requires UniqueEdges(edges) && Distinct(ws)
    ensures Distinct(ExtendAll(edges, s, ws))
  {
    if ws != [] {
      var out := OutEdges(edges, End(s, ws[0]));
      OutEdgesDistinct(edges, End(s, ws[0]));
      ExtendDistinct(ws[0], out);
      ExtendAllDistinct(edges, s, ws[1..]);
      assert ws[0] !in ws[1..];
      forall w | w in Extend(ws[0], out)
        ensures w !in ExtendAll(edges, s, ws[1..])
      {
        NonemptyExtend(ws[0], out, w);
        var x, e := w[..|w| - 1], w[|w| - 1];
        assert w == x + [e];
        ExtendMembers(ws[0], out, x, e);
        ExtendAllMembers(edges, s, ws[1..], x, e);
      }
      DistinctConcat(Extend(ws[0], out), ExtendAll(edges, s, ws[1..]));
    }
  }

  lemma DistinctConcat<T(!new)>(a: seq<T>, b: seq<T>)
    requires Distinct(a) && Distinct(b) && forall x | x in a :: x !in b
    ensures Distinct(a + b)
  {
    forall i, j | 0 <= i < j < |a + b|
      ensures (a + b)[i] != (a + b)[j]
    {
      if i < |a| <= j {
        assert a[i] in a && b[j - |a|] in b;
      }
    }
  }

  lemma {:induction false} WalksOfDistinct(edges: seq<Edge>, s: string, d: nat)
    requires UniqueEdges(edges)
    ensures Distinct(WalksOf(edges, s, d))
  {
    if d > 0 {
      WalksOfDistinct(edges, s, d - 1);
      ExtendAllDistinct(edges, s, WalksOf(edges, s, d - 1));
    }
  }
}

/**
  A vertex of the recipe graph: a recipe or an ingredient, with its price
  and its neighbours, and the measures on vertices: depth, shared
  neighbours and the Jaccard similarity of two vertices.

  Neighbours are held by key: keys are unique within a graph, so the set
  of neighbour keys stands for the set of neighbour vertices.
*/
module Vertices {
  import opened Catalog

  datatype Kind = RecipeKind | IngredientKind

  /** What a vertex carries besides its key: an ingredient carries nothing,
      a recipe carries its recipe (the `details`, whose cleaned ingredients
      are the vertex's `v_cleaned_ingredients`). */
  datatype Node = IngredientNode | RecipeNode(recipe: Recipe)

  datatype Vertex = Vertex(item: string, node: Node, price: real, neighbours: set<string>)

  function KindOf(v: Vertex): Kind {
    if v.node.RecipeNode? then RecipeKind else IngredientKind
  }

  /** A new vertex: no neighbours yet. */
  function NewIngredient(item: string, price: real): Vertex {
    Vertex(item, IngredientNode, price, {})
  }

  function NewRecipe(r: Recipe): Vertex {
    Vertex(r.title, RecipeNode(r), r.price, {})
  }

  /** The number of neighbours. */
  function Depth(v: Vertex): nat {
    |v.neighbours|
  }

  /** The neighbours of `a` other than `b`. */
  function Others(a: Vertex, b: Vertex): set<string> {
    a.neighbours - {b.item}
  }

  /** The number of neighbours `a` and `b` have in common, each leaving the
      other out. */
  function SharedNeighbours(a: Vertex, b: Vertex): (n: nat)
    ensures n <= |Others(a, b)| && n <= |Others(b, a)|
  {
    var i := Others(a, b) * Others(b, a);
    SubsetCard(i, Others(a, b));
    SubsetCard(i, Others(b, a));
    |i|
  }

  /** The Jaccard similarity of the neighbourhoods, each leaving the other
      vertex out: shared neighbours over all neighbours, and 0 when neither
      has any. */
  function Similarity(a: Vertex, b: Vertex): (r: real)
    ensures 0.0 <= r <= 1.0
  {
    var u := Others(a, b) + Others(b, a);
    var i := Others(a, b) * Others(b, a);
    if |u| == 0 then 0.0
    else
      SubsetCard(i, u);
      UnitRatio(|i|, |u|);
      (|i| as real) / (|u| as real)
  }

  /** A count over a larger, non-zero count is a ratio in [0, 1]. */
  lemma UnitRatio(n: nat, d: nat)
    requires n <= d && 0 < d
    ensures 0.0 <= (n as real) / (d as real) <= 1.0
  {
    var q := (n as real) / (d as real);
    assert q * (d as real) == n as real;
  }

  lemma {:induction false} SubsetCard<T>(a: set<T>, b: set<T>)
    requires a <= b
    ensures |a| <= |b|
    ensures |a| == |b| ==> a == b
    decreases |b|
  {
    if b != {} {
      var x :| x in b;
      SubsetCard(a - {x}, b - {x});
      if x in a {
        assert |a - {x}| == |a| - 1;
        if |a| == |b| {
          assert a == (a - {x}) + {x} && b == (b - {x}) + {x};
        }
      } else {
        assert a - {x} == a;
        assert |b - {x}| == |b| - 1;
      }
    }
  }

  // ---------------------------------------------------------------------------
  // Properties
  // ---------------------------------------------------------------------------

  lemma SimilaritySymmetric(a: Vertex, b: Vertex)
    ensures Similarity(a, b) == Similarity(b, a)
    ensures SharedNeighbours(a, b) == SharedNeighbours(b, a)
  {
    assert Others(a, b) + Others(b, a) == Others(b, a) + Others(a, b);
    assert Others(a, b) * Others(b, a) == Others(b, a) * Others(a, b);
  }

  /** The shared neighbours are the numerator of the similarity. */
  lemma SimilarityRatio(a: Vertex, b: Vertex)
    ensures var u := Others(a, b) + Others(b, a);
            |u| > 0 ==> Similarity(a, b) * (|u| as real) == SharedNeighbours(a, b) as real
  {
  }

  /** Two vertices share no neighbours exactly when their similarity is 0. */
  lemma SimilarityZeroIff(a: Vertex, b: Vertex)
    ensures Similarity(a, b) == 0.0 <==> SharedNeighbours(a, b) == 0
  {
    var u := Others(a, b) + Others(b, a);
    var i := Others(a, b) * Others(b, a);
    if |u| == 0 {
      SubsetCard(i, u);
    }
  }

  /** The similarity is 1 exactly when both have the same non-empty set of
      neighbours, each leaving the other out. */
  lemma SimilarityOneIff(a: Vertex, b: Vertex)
    ensures Similarity(a, b) == 1.0 <==> Others(a, b) == Others(b, a) != {}
  {
    var u := Others(a, b) + Others(b, a);
    var i := Others(a, b) * Others(b, a);
    if |u| > 0 {
      SubsetCard(i, u);
      if Similarity(a, b) == 1.0 {
        assert (|i| as real) / (|u| as real) == 1.0;
        assert |i| == |u|;
        assert i == u;
        assert Others(a, b) == i && Others(b, a) == i;
      }
      if Others(a, b) == Others(b, a) {
        assert i == u;
        var n := |u| as real;
        assert n > 0.0;
        assert n / n * n == n;
        assert (n / n - 1.0) * n == 0.0;
        assert n / n == 1.0;
      }
    }
  }

  /** Shared neighbours never exceed either vertex's depth. */
  lemma SharedBelowDepth(a: Vertex, b: Vertex)
    ensures SharedNeighbours(a, b) <= Depth(a)
    ensures SharedNeighbours(a, b) <= Depth(b)
  {
    SubsetCard(Others(a, b), a.neighbours);
    SubsetCard(Others(b, a), b.neighbours);
  }

  // ---------------------------------------------------------------------------
  // The documented examples, with distinct keys v1 ... v5
  // ---------------------------------------------------------------------------

  /** v1 with the neighbour v2 has depth 1. */
  lemma DepthExample()
    ensures Depth(Vertex("v1", IngredientNode, 0.0, {"v2"})) == 1
  {
  }

  /** v1 with neighbours v3, v4, v2 and v2 with neighbour v4: similarity 0.5,
      one shared neighbour. */
  lemma SimilarityExample()
    ensures var v1 := Vertex("v1", IngredientNode, 0.0, {"v3", "v4", "v2"});
            var v2 := Vertex("v2", IngredientNode, 0.0, {"v4"});
            Similarity(v1, v2) == 0.5 && SharedNeighbours(v1, v2) == 1
  {
    var v1 := Vertex("v1", IngredientNode, 0.0, {"v3", "v4", "v2"});
    var v2 := Vertex("v2", IngredientNode, 0.0, {"v4"});
    assert Others(v1, v2) == {"v3", "v4"};
    assert Others(v2, v1) == {"v4"};
    assert Others(v1, v2) + Others(v2, v1) == {"v3", "v4"};
    assert Others(v1, v2) * Others(v2, v1) == {"v4"};
  }
}

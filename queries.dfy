/**
  The read-only queries on a recipe graph: the vertices of a kind in
  insertion order, the most connected ingredients and the ingredients most
  similar to a given one.
*/
module Queries {
  import opened Wrappers
  import opened Normalizer
  import opened Catalog
  import opened Vertices
  import opened Tables
  import opened Ranking

  // ---------------------------------------------------------------------------
  // filter_kind
  // ---------------------------------------------------------------------------

  function KindName(k: Kind): string {
    match k
    case RecipeKind => "recipe"
    case IngredientKind => "ingredient"
  }

  /** The kind `''` matches every vertex; any other kind matches the vertices
      whose kind has that name. */
  predicate Matches(v: Vertex, kind: string) {
    kind == "" || KindName(KindOf(v)) == kind
  }

  /** From distinct elements, `Keep` keeps each once. */
  lemma {:induction false} KeepDistinct(s: seq<string>, f: string -> bool)
    requires Distinct(s)
    ensures Distinct(Keep(s, f))
  {
    if s != [] {
      var n := |s| - 1;
      KeepDistinct(s[..n], f);
      KeepMembers(s[..n], f);
      if f(s[n]) {
        assert s[n] !in s[..n];
      }
    }
  }

  /** `Keep` keeps the order: one kept before another stands before it in
      `s`. */
  lemma {:induction false} KeepOrder(s: seq<string>, f: string -> bool)
    requires Distinct(s)
    ensures forall x | x in Keep(s, f) :: x in s
    ensures forall i, j | 0 <= i < j < |Keep(s, f)| :: IndexOf(s, Keep(s, f)[i]) < IndexOf(s, Keep(s, f)[j])
  {
    KeepMembers(s, f);
    if s != [] {
      var p := s[..|s| - 1];
      var c := s[|s| - 1];
      assert s == p + [c];
      var kept := Keep(p, f);
      assert Distinct(p);
      KeepOrder(p, f);
      KeepMembers(p, f);
      assert c !in p;
      OrderStep(p, c, kept, Keep(s, f));
    }
  }

  /** The vertex `t` holds at each of `keys`. */
  function VerticesAt(t: Table, keys: seq<string>): (r: seq<Vertex>)
    requires forall k | k in keys :: k in t.vertices
    ensures |r| == |keys| && forall i | 0 <= i < |keys| :: r[i] == t.vertices[keys[i]]
  {
    seq(|keys|, i requires 0 <= i < |keys| => t.vertices[keys[i]])
  }

  /** A key of a vertex that matches `kind`. */
  function KindTest(t: Table, kind: string): string -> bool {
    k => k in t.vertices && Matches(t.vertices[k], kind)
  }

  /** The keys among `keys` whose vertex matches `kind`. */
  function KindKeys(t: Table, keys: seq<string>, kind: string): (r: seq<string>)
    ensures forall k | k in r :: k in keys && k in t.vertices && Matches(t.vertices[k], kind)
  {
    KeepMembers(keys, KindTest(t, kind));
    Keep(keys, KindTest(t, kind))
  }

  /** `filter_kind`: the vertices of the graph that match `kind`, in
      insertion order. */
  function OfKind(t: Table, kind: string): seq<Vertex>
    requires Ordered(t)
  {
    var ks := KindKeys(t, t.order, kind);
    KeepMembers(t.order, KindTest(t, kind));
    VerticesAt(t, ks)
  }

  function Items(vs: seq<Vertex>): (r: seq<string>)
    ensures |r| == |vs| && forall i | 0 <= i < |vs| :: r[i] == vs[i].item
  {
    seq(|vs|, i requires 0 <= i < |vs| => vs[i].item)
  }

  /** The keys of the vertices `filter_kind` lists are the matching keys. */
  lemma OfKindItems(t: Table, kind: string)
    requires Ordered(t) && KeysMatch(t)
    ensures Items(OfKind(t, kind)) == KindKeys(t, t.order, kind)
  {
    var f := KindTest(t, kind);
    KeepMembers(t.order, f);
    var ks := KindKeys(t, t.order, kind);
    assert forall i | 0 <= i < |ks| :: ks[i] in ks;
  }

  /** `filter_kind` lists exactly the matching vertices. */
  lemma OfKindMembers(t: Table, kind: string)
    requires Ordered(t) && KeysMatch(t)
    ensures forall v :: v in OfKind(t, kind) <==> v.item in t.vertices && t.vertices[v.item] == v && Matches(v, kind)
  {
    var f := KindTest(t, kind);
    KeepMembers(t.order, f);
    var ks := KindKeys(t, t.order, kind);
    var r := OfKind(t, kind);
    forall v: Vertex | v.item in t.vertices && t.vertices[v.item] == v && Matches(v, kind) ensures v in r {
      var i :| 0 <= i < |ks| && ks[i] == v.item;
      assert r[i] == v;
    }
  }

  /** `filter_kind` lists each vertex once, in insertion order. */
  lemma OfKindOrder(t: Table, kind: string)
    requires Ordered(t) && KeysMatch(t)
    ensures var ks := Items(OfKind(t, kind));
            Distinct(ks) &&
            forall i, j | 0 <= i < j < |ks| :: ks[i] in t.order && ks[j] in t.order &&
                                               IndexOf(t.order, ks[i]) < IndexOf(t.order, ks[j])
  {
    OfKindItems(t, kind);
    var kept := Keep(t.order, KindTest(t, kind));
    KeepDistinct(t.order, KindTest(t, kind));
    KeepOrder(t.order, KindTest(t, kind));
    forall i, j | 0 <= i < j < |kept|
      ensures kept[i] in t.order && kept[j] in t.order && IndexOf(t.order, kept[i]) < IndexOf(t.order, kept[j])
    {
      assert kept[i] in kept && kept[j] in kept;
    }
  }

  /** `filter_kind('')` lists every vertex, in insertion order. */
  lemma OfKindAll(t: Table)
    requires Ordered(t) && KeysMatch(t)
    ensures Items(OfKind(t, "")) == t.order
  {
    OfKindItems(t, "");
    KeepAll(t.order, KindTest(t, ""));
  }

  // ---------------------------------------------------------------------------
  // get_most_connected_ingredients
  // ---------------------------------------------------------------------------

  /** A depth score: the depth, the key and the price of an ingredient. */
  type DepthScore = (nat, string, real)

  /** Python's order on `(depth, key, price)` tuples, as `>=`. */
  predicate TripleAtLeast(a: DepthScore, b: DepthScore) {
    a.0 > b.0 || (a.0 == b.0 && (StrLess(b.1, a.1) || (a.1 == b.1 && a.2 >= b.2)))
  }

  lemma TripleTotalPreorder()
    ensures TotalPreorder(TripleAtLeast)
  {
    StrLessOrder();
  }

  /** The depth scores of the ingredient vertices at `keys`, in order. */
  function DepthScores(t: Table, keys: seq<string>): seq<DepthScore>
    requires forall k | k in keys :: k in t.vertices
  {
    if keys == [] then []
    else
      var k := keys[|keys| - 1];
      var v := t.vertices[k];
      DepthScores(t, keys[..|keys| - 1]) + (if v.node.IngredientNode? then [(Depth(v), k, v.price)] else [])
  }

  /** `get_most_connected_ingredients`: the depth scores sorted in reverse,
      at most 10. */
  function MostConnected(t: Table): seq<DepthScore>
    requires Ordered(t)
  {
    Take(SortDesc(DepthScores(t, t.order), TripleAtLeast), 10)
  }

  /** A depth score is listed exactly for each ingredient key, with its depth
      and price. */
  lemma {:induction false} DepthScoresMembers(t: Table, keys: seq<string>)
    requires forall k | k in keys :: k in t.vertices
    ensures forall s :: s in DepthScores(t, keys) <==>
              s.1 in keys && t.vertices[s.1].node.IngredientNode? &&
              s == (Depth(t.vertices[s.1]), s.1, t.vertices[s.1].price)
  {
    if keys != [] {
      var p := keys[..|keys| - 1];
      assert keys == p + [keys[|keys| - 1]];
      DepthScoresMembers(t, p);
    }
  }

  /** One depth score per ingredient vertex among `keys`. */
  lemma {:induction false} DepthScoresCount(t: Table, keys: seq<string>)
    requires forall k | k in keys :: k in t.vertices
    ensures |DepthScores(t, keys)| == |KindKeys(t, keys, "ingredient")|
  {
    if keys != [] {
      var p := keys[..|keys| - 1];
      assert forall k | k in p :: k in keys;
      DepthScoresCount(t, p);
    }
  }

  /** Ten scores, or one per ingredient when there are fewer, all of
      ingredient vertices with their true depth and price, sorted in
      reverse, and none left out that ranks above one listed. */
  lemma MostConnectedSpec(t: Table)
    requires Ordered(t)
    ensures var r := MostConnected(t);
            var n := |IngredientKeys(t)|;
            |r| == (if n < 10 then n else 10) &&
            (forall s | s in r :: s.1 in t.vertices && t.vertices[s.1].node.IngredientNode? &&
                                  s.0 == Depth(t.vertices[s.1]) && s.2 == t.vertices[s.1].price) &&
            SortedDesc(r, TripleAtLeast) &&
            (forall s, x | s in r && x in DepthScores(t, t.order) && x !in r :: TripleAtLeast(s, x))
  {
    TripleTotalPreorder();
    TopOfSorted(DepthScores(t, t.order), TripleAtLeast, 10);
    DepthScoresMembers(t, t.order);
    DepthScoresCount(t, t.order);
  }

  /** Every ingredient vertex has its score listed. */
  lemma DepthScoresComplete(t: Table, k: string)
    requires Ordered(t)
    requires k in t.vertices && t.vertices[k].node.IngredientNode?
    ensures (Depth(t.vertices[k]), k, t.vertices[k].price) in DepthScores(t, t.order)
  {
    DepthScoresMembers(t, t.order);
  }

  // ---------------------------------------------------------------------------
  // get_similar
  // ---------------------------------------------------------------------------

  /** A similarity score: the similarity and the key of the other ingredient. */
  type SimilarityScore = (real, string)

  /** Python's order on `(score, key)` tuples, as `>=`. */
  predicate PairAtLeast(a: SimilarityScore, b: SimilarityScore) {
    a.0 > b.0 || (a.0 == b.0 && (StrLess(b.1, a.1) || a.1 == b.1))
  }

  lemma PairTotalPreorder()
    ensures TotalPreorder(PairAtLeast)
  {
    StrLessOrder();
  }

  /** `list.remove(x)`: drops the first occurrence, raising `ValueError` when
      there is none. */
  function RemoveFirst(s: seq<string>, x: string): (r: Result<seq<string>, Failure>)
    ensures r.Err? <==> x !in s
    ensures r.Err? ==> r.error == NotInList(x)
    ensures r.Ok? ==> |r.value| == |s| - 1
  {
    if s == [] then Err(NotInList(x))
    else if s[0] == x then Ok(s[1..])
    else match RemoveFirst(s[1..], x)
      case Err(e) => Err(e)
      case Ok(rest) => Ok([s[0]] + rest)
  }

  lemma {:induction false} RemoveFirstDistinct(s: seq<string>, x: string)
    requires Distinct(s) && x in s
    ensures RemoveFirst(s, x).Ok?
    ensures forall y :: y in RemoveFirst(s, x).value <==> y in s && y != x
  {
    if s[0] != x {
      assert Distinct(s[1..]) by {
        assert forall i | 0 <= i < |s| - 1 :: s[1..][i] == s[i + 1];
      }
      RemoveFirstDistinct(s[1..], x);
    } else {
      assert forall i | 0 < i < |s| :: s[i] != x;
      assert forall y :: y in s[1..] ==> y != x;
    }
  }

  /** The scores of the ingredients `others` against the vertex at `key`, in
      order. */
  function SimilarityScores(t: Table, key: string, others: seq<string>): (r: seq<SimilarityScore>)
    requires key in t.vertices && forall k | k in others :: k in t.vertices
    ensures |r| == |others|
  {
    if others == [] then []
    else
      var o := others[|others| - 1];
      SimilarityScores(t, key, others[..|others| - 1]) + [(Similarity(t.vertices[key], t.vertices[o]), o)]
  }

  /** The keys of the ingredient vertices, in insertion order. */
  function IngredientKeys(t: Table): seq<string>
    requires Ordered(t)
  {
    Items(OfKind(t, "ingredient"))
  }

  /** `get_similar`: the other ingredients scored against `key`, sorted in
      reverse, at most 5; `ValueError` when `key` is not an ingredient. */
  function Similar(t: Table, key: string): Result<seq<SimilarityScore>, Failure>
    requires WellFormed(t)
  {
    var ings := IngredientKeys(t);
    match RemoveFirst(ings, key)
    case Err(e) => Err(e)
    case Ok(others) =>
      IngredientKeysSpec(t);
      RemoveFirstMembers(ings, key);
      Ok(Take(SortDesc(SimilarityScores(t, key, others), PairAtLeast), 5))
  }

  lemma {:induction false} RemoveFirstMembers(s: seq<string>, x: string)
    requires RemoveFirst(s, x).Ok?
    ensures forall y | y in RemoveFirst(s, x).value :: y in s
  {
    if s[0] != x {
      RemoveFirstMembers(s[1..], x);
    }
  }

  /** The ingredient keys are the keys of ingredient vertices, each once. */
  lemma IngredientKeysSpec(t: Table)
    requires WellFormed(t)
    ensures forall k :: k in IngredientKeys(t) <==> k in t.vertices && t.vertices[k].node.IngredientNode?
    ensures Distinct(IngredientKeys(t))
  {
    var f := KindTest(t, "ingredient");
    KeepMembers(t.order, f);
    KeepDistinct(t.order, f);
    assert IngredientKeys(t) == KindKeys(t, t.order, "ingredient");
  }

  lemma {:induction false} SimilarityScoresMembers(t: Table, key: string, others: seq<string>)
    requires key in t.vertices && forall k | k in others :: k in t.vertices
    ensures forall s :: s in SimilarityScores(t, key, others) <==>
              s.1 in others && s.0 == Similarity(t.vertices[key], t.vertices[s.1])
  {
    if others != [] {
      var p := others[..|others| - 1];
      assert others == p + [others[|others| - 1]];
      SimilarityScoresMembers(t, key, p);
    }
  }

  /** `get_similar` raises exactly when `key` is not an ingredient; otherwise
      five scores of other ingredients, or one per other ingredient when
      there are fewer, each its true similarity, sorted in reverse, and none left out that ranks above one listed. */
  lemma SimilarSpec(t: Table, key: string)
    requires WellFormed(t)
    ensures Similar(t, key).Err? <==> !(key in t.vertices && t.vertices[key].node.IngredientNode?)
    ensures Similar(t, key).Err? ==> Similar(t, key).error == NotInList(key)
    ensures Similar(t, key).Ok? ==>
              var r := Similar(t, key).value;
              var n := |IngredientKeys(t)| - 1;
              |r| == (if n < 5 then n else 5) &&
              (forall s | s in r :: s.1 != key && s.1 in t.vertices && t.vertices[s.1].node.IngredientNode? &&
                                    s.0 == Similarity(t.vertices[key], t.vertices[s.1])) &&
              SortedDesc(r, PairAtLeast) &&
              (forall s, o | s in r && o in t.vertices && o != key && t.vertices[o].node.IngredientNode? &&
                             (Similarity(t.vertices[key], t.vertices[o]), o) !in r ::
                 PairAtLeast(s, (Similarity(t.vertices[key], t.vertices[o]), o)))
  {
    IngredientKeysSpec(t);
    var ings := IngredientKeys(t);
    if key in ings {
      RemoveFirstDistinct(ings, key);
      RemoveFirstMembers(ings, key);
      var others := RemoveFirst(ings, key).value;
      PairTotalPreorder();
      TopOfSorted(SimilarityScores(t, key, others), PairAtLeast, 5);
      SimilarityScoresMembers(t, key, others);
    }
  }
}

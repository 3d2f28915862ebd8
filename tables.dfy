/**
  The state of a recipe graph as a value: the dictionary from key to vertex,
  with the insertion order a Python dictionary keeps, and the two ways the
  graph grows: adding a recipe's vertices and adding a recipe's edges.

  The class `Graph` holds exactly this state in its fields; its methods are
  proved to change it as the functions here say.
*/
module Tables {
  import opened Wrappers
  import opened Normalizer
  import opened Catalog
  import opened Vertices

  /** `_vertices`: the map from key to vertex and the order in which the keys
      were inserted. */
  datatype Table = Table(vertices: map<string, Vertex>, order: seq<string>)

  /** A state-changing step's new state and how it ended. */
  datatype Outcome = Outcome(table: Table, status: Status)

  function EmptyTable(): Table {
    Table(map[], [])
  }

  /** The order lists every key once and nothing else. */
  ghost predicate Ordered(t: Table) {
    Distinct(t.order) && forall k :: k in t.vertices <==> k in t.order
  }

  /** `self._vertices[v.item] = v`: a new key goes to the end of the order. */
  function Put(t: Table, v: Vertex): Table {
    Table(t.vertices[v.item := v], if v.item in t.vertices then t.order else t.order + [v.item])
  }

  /** `float(prices[ing])`: the lookup raises `KeyError` on a missing key and
      the conversion raises on the empty entry. */
  function PriceOf(prices: PriceTable, ing: string): (r: Result<real, Failure>)
    ensures r.Ok? <==> ing in prices && prices[ing].Priced?
    ensures r.Ok? ==> r.value == prices[ing].amount
    ensures r.Err? ==> r.error == (if ing in prices then NotANumber(ing) else KeyError(ing))
  {
    if ing !in prices then Err(KeyError(ing))
    else match prices[ing]
      case Priced(p) => Ok(p)
      case Unpriced => Err(NotANumber(ing))
  }

  /** One ingredient of `add_vertex`: its price is read first, then its
      vertex is inserted unless the key is already there. */
  function PutIngredient(t: Table, ing: string, price: real): Table {
    if ing in t.vertices then t else Put(t, NewIngredient(ing, price))
  }

  /** The ingredient loop of `add_vertex`, one ingredient after another,
      stopping at the first price that cannot be read; the vertices inserted
      before it stay. */
  function PutIngredients(t: Table, ings: seq<string>, prices: PriceTable): (r: Outcome)
    ensures forall k | k in t.vertices :: k in r.table.vertices && r.table.vertices[k] == t.vertices[k]
    ensures forall k | k in r.table.vertices && k !in t.vertices ::
              k in ings && k in prices && prices[k].Priced? &&
              r.table.vertices[k] == NewIngredient(k, prices[k].amount)
    ensures r.status == Done <==> AllPriced(ings, prices)
    ensures r.status == Done ==> forall i | i in ings :: i in r.table.vertices
    ensures r.status.Raised? ==>
              var g := FirstGap(ings, prices);
              g < |ings| && r.status.failure == (if ings[g] in prices then NotANumber(ings[g]) else KeyError(ings[g]))
    ensures Ordered(t) ==> Ordered(r.table)
    decreases |ings|
  {
    if ings == [] then Outcome(t, Done)
    else match PriceOf(prices, ings[0])
      case Err(e) => Outcome(t, Raised(e))
      case Ok(p) =>
        var r := PutIngredients(PutIngredient(t, ings[0], p), ings[1..], prices);
        assert AllPriced(ings, prices) <==> AllPriced(ings[1..], prices) by {
          assert forall i :: 1 <= i < |ings| ==> ings[i] == ings[1..][i - 1];
        }
        r
  }

  /** The ingredients before the first unreadable price are inserted, also
      when the loop raises at that price. */
  lemma {:induction false} PutIngredientsPrefix(t: Table, ings: seq<string>, prices: PriceTable)
    ensures forall i | i in ings[..FirstGap(ings, prices)] :: i in PutIngredients(t, ings, prices).table.vertices
    decreases |ings|
  {
    if ings != [] && ings[0] in prices && prices[ings[0]].Priced? {
      var k := FirstGap(ings, prices);
      var t1 := PutIngredient(t, ings[0], prices[ings[0]].amount);
      assert PutIngredients(t, ings, prices) == PutIngredients(t1, ings[1..], prices);
      PutIngredientsPrefix(t1, ings[1..], prices);
      assert ings[..k] == [ings[0]] + ings[1..][..k - 1];
    }
  }

  /** The ingredient loop only appends to the insertion order. */
  lemma {:induction false} PutIngredientsExtends(t: Table, ings: seq<string>, prices: PriceTable)
    ensures t.order <= PutIngredients(t, ings, prices).table.order
    decreases |ings|
  {
    if ings != [] && ings[0] in prices && prices[ings[0]].Priced? {
      var t1 := PutIngredient(t, ings[0], prices[ings[0]].amount);
      assert PutIngredients(t, ings, prices) == PutIngredients(t1, ings[1..], prices);
      PutIngredientsExtends(t1, ings[1..], prices);
    }
  }

  /** `add_vertex`: the ingredient vertices, then the recipe vertex unless its
      title is a key already. */
  function WithVertex(t: Table, rc: Recipe, prices: PriceTable): (r: Outcome)
    ensures forall k | k in t.vertices :: k in r.table.vertices && r.table.vertices[k] == t.vertices[k]
    ensures forall k | k in r.table.vertices && k !in t.vertices ::
              (k in rc.cleaned && k in prices && prices[k].Priced? &&
               r.table.vertices[k] == NewIngredient(k, prices[k].amount)) ||
              (k == rc.title && k !in rc.cleaned && r.status == Done && r.table.vertices[k] == NewRecipe(rc))
    ensures r.status == Done <==> AllPriced(rc.cleaned, prices)
    ensures r.status == Done ==> rc.title in r.table.vertices && forall i | i in rc.cleaned :: i in r.table.vertices
    ensures Ordered(t) ==> Ordered(r.table)
  {
    var p := PutIngredients(t, rc.cleaned, prices);
    if p.status.Raised? then p
    else if rc.title in p.table.vertices then p
    else Outcome(Put(p.table, NewRecipe(rc)), Done)
  }

  /** `add_vertex` only appends to the insertion order. */
  lemma WithVertexExtends(t: Table, rc: Recipe, prices: PriceTable)
    ensures t.order <= WithVertex(t, rc, prices).table.order
  {
    PutIngredientsExtends(t, rc.cleaned, prices);
  }

  /** `w` is `v` with at most more neighbours. */
  predicate Settled(v: Vertex, w: Vertex) {
    w.item == v.item && w.node == v.node && w.price == v.price && v.neighbours <= w.neighbours
  }

  /** One edge, added to both ends: the recipe's neighbours first, then the
      ingredient's, the second reading the map the first one updated. */
  function Link(t: Table, r: string, i: string): (u: Table)
    requires r in t.vertices && i in t.vertices
    ensures u.vertices.Keys == t.vertices.Keys && u.order == t.order
    ensures forall k | k in t.vertices :: Settled(t.vertices[k], u.vertices[k])
  {
    var vs := t.vertices[r := t.vertices[r].(neighbours := t.vertices[r].neighbours + {i})];
    Table(vs[i := vs[i].(neighbours := vs[i].neighbours + {r})], t.order)
  }

  /** The loop of `add_edge`: each ingredient is looked up, raising `KeyError`
      when it is not a key, and linked to the recipe. */
  function LinkAll(t: Table, r: string, ings: seq<string>): (u: Outcome)
    requires r in t.vertices
    ensures u.table.vertices.Keys == t.vertices.Keys && u.table.order == t.order
    ensures forall k | k in t.vertices :: Settled(t.vertices[k], u.table.vertices[k])
    ensures u.status == Done <==> forall i | i in ings :: i in t.vertices
    decreases |ings|
  {
    if ings == [] then Outcome(t, Done)
    else if ings[0] !in t.vertices then Outcome(t, Raised(KeyError(ings[0])))
    else
      var u := LinkAll(Link(t, r, ings[0]), r, ings[1..]);
      assert forall i | i in ings :: i == ings[0] || i in ings[1..];
      u
  }

  /** `add_edge`: the lookup of the key raises `KeyError` when it is absent, a
      vertex that is not a recipe raises `ValueError`, and otherwise the
      recipe is linked to each of its cleaned ingredients. */
  function WithEdges(t: Table, title: string): (u: Outcome)
    ensures u.table.vertices.Keys == t.vertices.Keys && u.table.order == t.order
    ensures forall k | k in t.vertices :: Settled(t.vertices[k], u.table.vertices[k])
    ensures title !in t.vertices ==> u == Outcome(t, Raised(KeyError(title)))
    ensures title in t.vertices && !t.vertices[title].node.RecipeNode? ==> u == Outcome(t, Raised(NotARecipe(title)))
  {
    if title !in t.vertices then Outcome(t, Raised(KeyError(title)))
    else
      var v := t.vertices[title];
      if !v.node.RecipeNode? then Outcome(t, Raised(NotARecipe(title)))
      else LinkAll(t, title, v.node.recipe.cleaned)
  }

  /** The loop of `load_graph`: for each recipe, `add_vertex` and then
      `add_edge` on its title; the first exception ends the loop. */
  function Built(t: Table, recipes: seq<Recipe>, prices: PriceTable): (u: Outcome)
    ensures forall k | k in t.vertices :: k in u.table.vertices && Settled(t.vertices[k], u.table.vertices[k])
    ensures Ordered(t) ==> Ordered(u.table)
    decreases |recipes|
  {
    if recipes == [] then Outcome(t, Done)
    else
      var a := WithVertex(t, recipes[0], prices);
      if a.status.Raised? then a
      else
        var e := WithEdges(a.table, recipes[0].title);
        if e.status.Raised? then e
        else Built(e.table, recipes[1..], prices)
  }

  // ---------------------------------------------------------------------------
  // The graph invariant
  // ---------------------------------------------------------------------------

  /** `r` is a recipe vertex and `i` one of its cleaned ingredients. */
  predicate Uses(t: Table, r: string, i: string) {
    r in t.vertices && t.vertices[r].node.RecipeNode? && i in t.vertices[r].node.recipe.cleaned
  }

  ghost predicate KeysMatch(t: Table) {
    forall k | k in t.vertices :: t.vertices[k].item == k
  }

  /** A recipe vertex is keyed by its title, is not among its own
      ingredients, and each of its ingredients is a key. */
  ghost predicate RecipesSound(t: Table) {
    forall k | k in t.vertices && t.vertices[k].node.RecipeNode? ::
      var rc := t.vertices[k].node.recipe;
      rc.title == k && k !in rc.cleaned && forall i | i in rc.cleaned :: i in t.vertices
  }

  /** Edges are symmetric, join keys, and each joins a recipe to one of its
      ingredients. */
  ghost predicate EdgesSound(t: Table) {
    forall a, b | a in t.vertices && b in t.vertices[a].neighbours ::
      b in t.vertices && a in t.vertices[b].neighbours && (Uses(t, a, b) || Uses(t, b, a))
  }

  ghost predicate WellFormed(t: Table) {
    Ordered(t) && KeysMatch(t) && RecipesSound(t) && EdgesSound(t)
  }

  /** Every recipe other than `x` is linked to each of its ingredients. */
  ghost predicate CompleteBut(t: Table, x: string) {
    forall r, i | Uses(t, r, i) && r != x :: i in t.vertices[r].neighbours
  }

  /** Every recipe is linked to each of its ingredients. */
  ghost predicate Complete(t: Table) {
    forall r, i | Uses(t, r, i) :: i in t.vertices[r].neighbours
  }

  lemma EmptyWellFormed()
    ensures WellFormed(EmptyTable()) && Complete(EmptyTable())
  {
  }

  /** No vertex is its own neighbour. */
  lemma NoSelfLoops(t: Table)
    requires WellFormed(t)
    ensures forall k | k in t.vertices :: k !in t.vertices[k].neighbours
  {
  }

  /** In a complete graph the edges are exactly the uses of ingredients by
      recipes, in both directions. */
  lemma EdgesAreUses(t: Table)
    requires WellFormed(t) && Complete(t)
    ensures forall a, b | a in t.vertices && b in t.vertices ::
              b in t.vertices[a].neighbours <==> Uses(t, a, b) || Uses(t, b, a)
  {
    forall a, b | a in t.vertices && b in t.vertices && (Uses(t, a, b) || Uses(t, b, a))
      ensures b in t.vertices[a].neighbours
    {
      if !Uses(t, a, b) {
        assert a in t.vertices[b].neighbours;
      }
    }
  }

  // ---------------------------------------------------------------------------
  // add_vertex
  // ---------------------------------------------------------------------------

  /** Inserting a new vertex without neighbours keeps the invariant; only a
      new recipe is left unlinked. */
  lemma PutWellFormed(t: Table, v: Vertex)
    requires WellFormed(t) && v.item !in t.vertices && v.neighbours == {}
    requires v.node.RecipeNode? ==>
               v.node.recipe.title == v.item && v.item !in v.node.recipe.cleaned &&
               forall i | i in v.node.recipe.cleaned :: i in t.vertices
    ensures WellFormed(Put(t, v))
    ensures Complete(t) ==> CompleteBut(Put(t, v), v.item)
    ensures Complete(t) && v.node.IngredientNode? ==> Complete(Put(t, v))
  {
    var u := Put(t, v);
    assert forall a, b | a in t.vertices :: Uses(u, a, b) == Uses(t, a, b);
    assert Distinct(u.order) by {
      assert forall i | 0 <= i < |t.order| :: t.order[i] in t.vertices;
    }
  }

  lemma {:induction false} PutIngredientsWellFormed(t: Table, ings: seq<string>, prices: PriceTable)
    requires WellFormed(t)
    ensures WellFormed(PutIngredients(t, ings, prices).table)
    ensures Complete(t) ==> Complete(PutIngredients(t, ings, prices).table)
    decreases |ings|
  {
    if ings != [] {
      match PriceOf(prices, ings[0])
      case Err(_) =>
      case Ok(p) =>
        if ings[0] !in t.vertices {
          PutWellFormed(t, NewIngredient(ings[0], p));
        }
        PutIngredientsWellFormed(PutIngredient(t, ings[0], p), ings[1..], prices);
    }
  }

  /** `add_vertex` keeps the invariant and leaves at most the new recipe
      unlinked. */
  lemma WithVertexWellFormed(t: Table, rc: Recipe, prices: PriceTable)
    requires WellFormed(t)
    ensures WellFormed(WithVertex(t, rc, prices).table)
    ensures Complete(t) ==> CompleteBut(WithVertex(t, rc, prices).table, rc.title)
    ensures Complete(t) && (WithVertex(t, rc, prices).status.Raised? || rc.title in t.vertices) ==>
              Complete(WithVertex(t, rc, prices).table)
  {
    var p := PutIngredients(t, rc.cleaned, prices);
    PutIngredientsWellFormed(t, rc.cleaned, prices);
    if p.status == Done && rc.title !in p.table.vertices {
      PutWellFormed(p.table, NewRecipe(rc));
    }
  }

  /** Once the ingredients are keys, the ingredient loop changes nothing more. */
  lemma {:induction false} PutIngredientsSettled(t: Table, ings: seq<string>, prices: PriceTable)
    ensures PutIngredients(PutIngredients(t, ings, prices).table, ings, prices) == PutIngredients(t, ings, prices)
    decreases |ings|
  {
    if ings != [] {
      match PriceOf(prices, ings[0])
      case Err(_) =>
      case Ok(p) =>
        var t1 := PutIngredient(t, ings[0], p);
        PutIngredientsSettled(t1, ings[1..], prices);
    }
  }

  /** Calling `add_vertex` twice with the same recipe is calling it once. */
  lemma WithVertexTwice(t: Table, rc: Recipe, prices: PriceTable)
    ensures WithVertex(WithVertex(t, rc, prices).table, rc, prices) == WithVertex(t, rc, prices)
  {
    var p := PutIngredients(t, rc.cleaned, prices);
    PutIngredientsSettled(t, rc.cleaned, prices);
    if p.status == Done && rc.title !in p.table.vertices {
      PutIngredientsPresent(Put(p.table, NewRecipe(rc)), rc.cleaned, prices);
    }
  }

  /** The ingredient loop over ingredients that are all keys and all priced
      changes nothing. */
  lemma {:induction false} PutIngredientsPresent(t: Table, ings: seq<string>, prices: PriceTable)
    requires AllPriced(ings, prices)
    requires forall i | i in ings :: i in t.vertices
    ensures PutIngredients(t, ings, prices) == Outcome(t, Done)
    decreases |ings|
  {
    if ings != [] {
      assert ings[0] in prices && prices[ings[0]].Priced?;
      assert AllPriced(ings[1..], prices) by {
        assert forall i :: 0 <= i < |ings| - 1 ==> ings[1..][i] == ings[i + 1];
      }
      PutIngredientsPresent(t, ings[1..], prices);
    }
  }

  // ---------------------------------------------------------------------------
  // add_edge
  // ---------------------------------------------------------------------------

  /** The neighbours vertex `k` gains when recipe `r` is linked to `ings`. */
  function Gain(k: string, r: string, ings: seq<string>): set<string> {
    (if k == r then set i | i in ings else {}) + (if k in ings then {r} else {})
  }

  /** The table with recipe `r` linked to each of `ings`, in both directions. */
  function Linked(t: Table, r: string, ings: seq<string>): Table {
    Table(map k | k in t.vertices :: t.vertices[k].(neighbours := t.vertices[k].neighbours + Gain(k, r, ings)),
          t.order)
  }

  lemma GainCons(k: string, r: string, x: string, ings: seq<string>)
    requires ings != []
    ensures Gain(k, r, ings) == Gain(k, r, [ings[0]]) + Gain(k, r, ings[1..])
  {
    assert forall i :: i in ings <==> i == ings[0] || i in ings[1..];
  }

  lemma LinkIsLinked(t: Table, r: string, x: string)
    requires r in t.vertices && x in t.vertices
    ensures Link(t, r, x) == Linked(t, r, [x])
  {
    var u := Link(t, r, x);
    var w := Linked(t, r, [x]);
    forall k | k in t.vertices ensures u.vertices[k] == w.vertices[k] {
      assert Gain(k, r, [x]) == (if k == r then {x} else {}) + (if k == x then {r} else {});
    }
    assert u.vertices == w.vertices;
  }

  lemma LinkedCons(t: Table, r: string, ings: seq<string>)
    requires ings != []
    ensures Linked(Linked(t, r, [ings[0]]), r, ings[1..]) == Linked(t, r, ings)
  {
    var u := Linked(Linked(t, r, [ings[0]]), r, ings[1..]);
    var w := Linked(t, r, ings);
    forall k | k in t.vertices ensures u.vertices[k] == w.vertices[k] {
      GainCons(k, r, ings[0], ings);
    }
    assert u.vertices == w.vertices;
  }

  /** The loop of `add_edge` over ingredients that are all keys links each of
      them and raises nothing. */
  lemma {:induction false} LinkAllLinks(t: Table, r: string, ings: seq<string>)
    requires r in t.vertices
    requires forall i | i in ings :: i in t.vertices
    ensures LinkAll(t, r, ings) == Outcome(Linked(t, r, ings), Done)
    decreases |ings|
  {
    if ings == [] {
      forall k | k in t.vertices ensures Linked(t, r, ings).vertices[k] == t.vertices[k] {
        assert Gain(k, r, ings) == {};
      }
      assert Linked(t, r, ings).vertices == t.vertices;
    } else {
      var t1 := Link(t, r, ings[0]);
      assert forall i | i in ings[1..] :: i in ings;
      LinkAllLinks(t1, r, ings[1..]);
      LinkIsLinked(t, r, ings[0]);
      LinkedCons(t, r, ings);
    }
  }

  /** Linking a recipe to some of its ingredients keeps the invariant. */
  lemma LinkedWellFormed(t: Table, k: string, ings: seq<string>)
    requires WellFormed(t)
    requires forall i | i in ings :: Uses(t, k, i)
    ensures WellFormed(Linked(t, k, ings))
  {
    var u := Linked(t, k, ings);
    assert forall a, b | a in t.vertices :: Uses(u, a, b) == Uses(t, a, b);
    assert EdgesSound(u) by {
      forall a, b | a in u.vertices && b in u.vertices[a].neighbours
        ensures b in u.vertices && a in u.vertices[b].neighbours && (Uses(u, a, b) || Uses(u, b, a))
      {
        if b !in t.vertices[a].neighbours {
          assert b in Gain(a, k, ings);
        }
      }
    }
  }

  /** Linking the one unlinked recipe to all of its ingredients completes
      the graph. */
  lemma LinkedComplete(t: Table, k: string)
    requires WellFormed(t) && CompleteBut(t, k)
    requires k in t.vertices && t.vertices[k].node.RecipeNode?
    ensures Complete(Linked(t, k, t.vertices[k].node.recipe.cleaned))
  {
    var u := Linked(t, k, t.vertices[k].node.recipe.cleaned);
    assert forall a, b | a in t.vertices :: Uses(u, a, b) == Uses(t, a, b);
  }

  /** On a well-formed table `add_edge` raises exactly when the key is absent
      or is not a recipe; otherwise it links the recipe to its ingredients. */
  lemma WithEdgesOutcome(t: Table, k: string)
    requires WellFormed(t)
    ensures WithEdges(t, k).status == Done <==> k in t.vertices && t.vertices[k].node.RecipeNode?
    ensures WithEdges(t, k).status == Done ==>
              WithEdges(t, k).table == Linked(t, k, t.vertices[k].node.recipe.cleaned)
  {
    if k in t.vertices && t.vertices[k].node.RecipeNode? {
      LinkAllLinks(t, k, t.vertices[k].node.recipe.cleaned);
    }
  }

  /** `add_edge` on a recipe of a well-formed table: the recipe gains its
      ingredients as neighbours, each ingredient gains the recipe, and
      nothing else changes. */
  lemma WithEdgesLinks(t: Table, k: string)
    requires WellFormed(t) && k in t.vertices && t.vertices[k].node.RecipeNode?
    ensures var u := WithEdges(t, k).table;
            var ings := t.vertices[k].node.recipe.cleaned;
            u.vertices.Keys == t.vertices.Keys && u.order == t.order &&
            u.vertices[k] == t.vertices[k].(neighbours := t.vertices[k].neighbours + set i | i in ings) &&
            (forall i | i in ings :: u.vertices[i] == t.vertices[i].(neighbours := t.vertices[i].neighbours + {k})) &&
            (forall j | j in t.vertices && j != k && j !in ings :: u.vertices[j] == t.vertices[j])
  {
    WithEdgesOutcome(t, k);
  }

  /** Calling `add_edge` twice on a key is calling it once. */
  lemma WithEdgesTwice(t: Table, k: string)
    requires WellFormed(t)
    ensures WithEdges(WithEdges(t, k).table, k) == WithEdges(t, k)
  {
    WithEdgesOutcome(t, k);
    if k in t.vertices && t.vertices[k].node.RecipeNode? {
      var ings := t.vertices[k].node.recipe.cleaned;
      var u := Linked(t, k, ings);
      LinkAllLinks(u, k, ings);
      assert Linked(u, k, ings) == u;
    }
  }

  /** `add_edge` keeps the invariant, and links the one recipe left
      unlinked; when it raises, the table is unchanged. */
  lemma WithEdgesWellFormed(t: Table, k: string)
    requires WellFormed(t)
    ensures WellFormed(WithEdges(t, k).table)
    ensures WithEdges(t, k).status.Raised? ==> WithEdges(t, k).table == t
    ensures CompleteBut(t, k) ==> Complete(WithEdges(t, k).table)
  {
    WithEdgesOutcome(t, k);
    if k in t.vertices && t.vertices[k].node.RecipeNode? {
      LinkedWellFormed(t, k, t.vertices[k].node.recipe.cleaned);
      if CompleteBut(t, k) {
        LinkedComplete(t, k);
      }
    }
  }

  // ---------------------------------------------------------------------------
  // load_graph
  // ---------------------------------------------------------------------------

  function RecipeTitles(recipes: seq<Recipe>): set<string> {
    set rc | rc in recipes :: rc.title
  }

  function AllIngredients(recipes: seq<Recipe>): set<string> {
    set rc, i | rc in recipes && i in rc.cleaned :: i
  }

  /** The build loop keeps the invariant and leaves every recipe linked,
      whether or not it raises. */
  lemma {:induction false} BuiltWellFormed(t: Table, recipes: seq<Recipe>, prices: PriceTable)
    requires WellFormed(t) && Complete(t)
    ensures WellFormed(Built(t, recipes, prices).table) && Complete(Built(t, recipes, prices).table)
    decreases |recipes|
  {
    if recipes != [] {
      var rc := recipes[0];
      var a := WithVertex(t, rc, prices);
      WithVertexWellFormed(t, rc, prices);
      if a.status.Done? {
        WithEdgesWellFormed(a.table, rc.title);
        var e := WithEdges(a.table, rc.title);
        if e.status.Done? {
          BuiltWellFormed(e.table, recipes[1..], prices);
        }
      }
    }
  }

  /** One turn of the build loop that raises nothing. */
  lemma BuiltStep(t: Table, recipes: seq<Recipe>, prices: PriceTable)
    requires recipes != []
    requires Built(t, recipes, prices).status == Done
    ensures var a := WithVertex(t, recipes[0], prices);
            var e := WithEdges(a.table, recipes[0].title);
            a.status == Done && e.status == Done && Built(t, recipes, prices) == Built(e.table, recipes[1..], prices)
  {
  }

  /** The keys `add_vertex` leaves when it raises nothing. */
  lemma WithVertexKeys(t: Table, rc: Recipe, prices: PriceTable)
    requires WithVertex(t, rc, prices).status == Done
    ensures WithVertex(t, rc, prices).table.vertices.Keys == t.vertices.Keys + {rc.title} + set i | i in rc.cleaned
  {
  }

  lemma RecipesSplit(recipes: seq<Recipe>)
    requires recipes != []
    ensures RecipeTitles(recipes) == {recipes[0].title} + RecipeTitles(recipes[1..])
    ensures AllIngredients(recipes) == (set i | i in recipes[0].cleaned) + AllIngredients(recipes[1..])
  {
    assert forall x | x in recipes :: x == recipes[0] || x in recipes[1..];
  }

  /** When the build loop finishes, the keys are the old keys, the recipes'
      titles and their ingredients. */
  lemma {:induction false} BuiltKeys(t: Table, recipes: seq<Recipe>, prices: PriceTable)
    requires Built(t, recipes, prices).status == Done
    ensures Built(t, recipes, prices).table.vertices.Keys ==
            t.vertices.Keys + RecipeTitles(recipes) + AllIngredients(recipes)
    decreases |recipes|
  {
    if recipes != [] {
      var rc := recipes[0];
      BuiltStep(t, recipes, prices);
      var a := WithVertex(t, rc, prices);
      WithVertexKeys(t, rc, prices);
      var e := WithEdges(a.table, rc.title);
      assert e.table.vertices.Keys == t.vertices.Keys + {rc.title} + set i | i in rc.cleaned;
      BuiltKeys(e.table, recipes[1..], prices);
      RecipesSplit(recipes);
      Regroup(t.vertices.Keys, {rc.title}, (set i | i in rc.cleaned), RecipeTitles(recipes[1..]), AllIngredients(recipes[1..]));
    }
  }

  lemma Regroup<T>(a: set<T>, b: set<T>, c: set<T>, d: set<T>, e: set<T>)
    ensures (a + b + c) + d + e == a + (b + d) + (c + e)
  {
  }

  /** When the build loop finishes, each title is a recipe vertex. */
  lemma {:induction false} BuiltTitles(t: Table, recipes: seq<Recipe>, prices: PriceTable)
    requires Built(t, recipes, prices).status == Done
    ensures var u := Built(t, recipes, prices).table;
            forall rc | rc in recipes :: rc.title in u.vertices && u.vertices[rc.title].node.RecipeNode?
    decreases |recipes|
  {
    if recipes != [] {
      var rc := recipes[0];
      BuiltStep(t, recipes, prices);
      var e := WithEdges(WithVertex(t, rc, prices).table, rc.title);
      assert rc.title in e.table.vertices && e.table.vertices[rc.title].node.RecipeNode?;
      BuiltTitles(e.table, recipes[1..], prices);
      assert forall x | x in recipes :: x == rc || x in recipes[1..];
    }
  }

  /** Every vertex the build loop adds is an ingredient or the recipe vertex
      of one of the recipes it was given. */
  lemma {:induction false} BuiltNodes(t: Table, recipes: seq<Recipe>, prices: PriceTable)
    ensures var u := Built(t, recipes, prices).table;
            forall k | k in u.vertices && k !in t.vertices && u.vertices[k].node.RecipeNode? ::
              u.vertices[k].node.recipe in recipes
    decreases |recipes|
  {
    if recipes != [] {
      var rc := recipes[0];
      var a := WithVertex(t, rc, prices);
      if a.status.Done? {
        var e := WithEdges(a.table, rc.title);
        if e.status.Done? {
          BuiltNodes(e.table, recipes[1..], prices);
          var u := Built(e.table, recipes[1..], prices).table;
          forall k | k in u.vertices && k !in t.vertices && u.vertices[k].node.RecipeNode?
            ensures u.vertices[k].node.recipe in recipes
          {
            if k in e.table.vertices {
              assert Settled(e.table.vertices[k], u.vertices[k]);
              assert Settled(a.table.vertices[k], e.table.vertices[k]);
            } else {
              assert u.vertices[k].node.recipe in recipes[1..];
            }
          }
        }
      }
    }
  }

  /** A title of the list is a recipe key of `t` or no key at all, and no
      recipe of the list lists a title of the list as an ingredient. */
  ghost predicate Separate(t: Table, recipes: seq<Recipe>) {
    (forall rc | rc in recipes :: rc.title !in t.vertices || t.vertices[rc.title].node.RecipeNode?) &&
    (forall a, b | a in recipes && b in recipes :: a.title !in b.cleaned)
  }

  /** `add_vertex` of the first of separate recipes raises nothing and adds
      its title as the one new recipe key. */
  lemma SeparateVertex(t: Table, recipes: seq<Recipe>, prices: PriceTable)
    requires WellFormed(t)
    requires recipes != [] && AllPriced(recipes[0].cleaned, prices)
    requires Separate(t, recipes)
    ensures var a := WithVertex(t, recipes[0], prices);
            a.status == Done && WellFormed(a.table) &&
            Separate(a.table, recipes[1..]) &&
            forall k | k in a.table.vertices ::
              a.table.vertices[k].node.RecipeNode? <==>
              (k in t.vertices && t.vertices[k].node.RecipeNode?) || k == recipes[0].title
  {
    var rc := recipes[0];
    WithVertexWellFormed(t, rc, prices);
    assert rc.title !in rc.cleaned;
    assert forall x | x in recipes[1..] :: x in recipes;
  }

  /** One turn of the build loop on separate recipes raises nothing and adds
      the title as the one new recipe key. */
  lemma SeparateStep(t: Table, recipes: seq<Recipe>, prices: PriceTable)
    requires WellFormed(t)
    requires recipes != [] && AllPriced(recipes[0].cleaned, prices)
    requires Separate(t, recipes)
    ensures var a := WithVertex(t, recipes[0], prices);
            var e := WithEdges(a.table, recipes[0].title);
            e.status == Done && WellFormed(e.table) &&
            Built(t, recipes, prices) == Built(e.table, recipes[1..], prices) &&
            Separate(e.table, recipes[1..]) &&
            forall k | k in e.table.vertices ::
              e.table.vertices[k].node.RecipeNode? <==>
              (k in t.vertices && t.vertices[k].node.RecipeNode?) || k == recipes[0].title
  {
    var rc := recipes[0];
    SeparateVertex(t, recipes, prices);
    var a := WithVertex(t, rc, prices);
    WithEdgesOutcome(a.table, rc.title);
    WithEdgesWellFormed(a.table, rc.title);
  }

  /** The build loop over recipes whose ingredients are all priced and whose
      titles clash with no ingredient raises nothing, and its recipe
      vertices are those of `t` and the titles. */
  lemma {:induction false} BuiltSucceeds(t: Table, recipes: seq<Recipe>, prices: PriceTable)
    requires WellFormed(t)
    requires forall rc | rc in recipes :: AllPriced(rc.cleaned, prices)
    requires Separate(t, recipes)
    ensures var u := Built(t, recipes, prices);
            u.status == Done &&
            forall k | k in u.table.vertices ::
              u.table.vertices[k].node.RecipeNode? <==>
              (k in t.vertices && t.vertices[k].node.RecipeNode?) || k in RecipeTitles(recipes)
    decreases |recipes|
  {
    if recipes != [] {
      var rc := recipes[0];
      SeparateStep(t, recipes, prices);
      var e := WithEdges(WithVertex(t, rc, prices).table, rc.title);
      assert forall x | x in recipes[1..] :: x in recipes;
      BuiltSucceeds(e.table, recipes[1..], prices);
      RecipesSplit(recipes);
    }
  }
}

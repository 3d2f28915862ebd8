/**
  The recipe graph as the object the program mutates: a dictionary from key
  to vertex, kept in insertion order, whose methods insert vertices, link a
  recipe to its ingredients, answer queries, and build new graphs.

  Each method is proved to change or read the state exactly as the
  functions of `Tables`, `Queries` and `Recommend` say; the properties of
  those functions are proved there.
*/
module Graphs {
  import opened Wrappers
  import opened Normalizer
  import opened Catalog
  import opened Vertices
  import opened Tables
  import opened Ranking
  import opened Queries
  import opened Recommend

  class Graph {
    /** `_vertices`: the vertex of each key, and the order of insertion. */
    var vertices: map<string, Vertex>
    var order: seq<string>

    function State(): Table
      reads this
    {
      Table(vertices, order)
    }

    /** The graph invariant: keys listed once in order, each vertex under its
        own key, recipes keyed by title with their ingredients present, and
        edges symmetric, each joining a recipe to one of its ingredients. */
    ghost predicate Valid()
      reads this
    {
      WellFormed(State())
    }

    /** An empty graph. */
    constructor ()
      ensures Valid() && State() == EmptyTable()
    {
      vertices := map[];
      order := [];
    }

    /** `is_empty`: whether the graph has no vertex. */
    method IsEmpty() returns (empty: bool)
      ensures empty <==> |vertices| == 0
    {
      empty := vertices == map[];
      assert empty || exists k :: k in vertices;
    }

    /** `add_vertex`: each cleaned ingredient's price is read (raising on a
        missing or empty entry) and its vertex inserted when the key is new;
        then the recipe vertex is inserted when its title is new. */
    method AddVertex(rc: Recipe, prices: PriceTable) returns (status: Status)
      requires Valid()
      modifies this
      ensures Valid()
      ensures Outcome(State(), status) == WithVertex(old(State()), rc, prices)
    {
      WithVertexWellFormed(State(), rc, prices);
      var ings := rc.cleaned;
      for i := 0 to |ings|
        invariant PutIngredients(old(State()), ings, prices) == PutIngredients(State(), ings[i..], prices)
      {
        assert ings[i..][1..] == ings[i + 1..];
        var ingredient := ings[i];
        var price := PriceOf(prices, ingredient);
        if price.Err? {
          return Raised(price.error);
        }
        if ingredient !in vertices {
          vertices := vertices[ingredient := NewIngredient(ingredient, price.value)];
          order := order + [ingredient];
        }
      }
      if rc.title !in vertices {
        vertices := vertices[rc.title := NewRecipe(rc)];
        order := order + [rc.title];
      }
      status := Done;
    }

    /** `add_edge`: the key is looked up (raising `KeyError` when absent), a
        vertex that is not a recipe raises `ValueError`, and otherwise the
        recipe and each of its ingredients gain one another as neighbours. */
    method AddEdge(title: string) returns (status: Status)
      requires Valid()
      modifies this
      ensures Valid()
      ensures Outcome(State(), status) == WithEdges(old(State()), title)
    {
      WithEdgesWellFormed(State(), title);
      if title !in vertices {
        return Raised(KeyError(title));
      }
      var v1 := vertices[title];
      if !v1.node.RecipeNode? {
        return Raised(NotARecipe(title));
      }
      var ings := v1.node.recipe.cleaned;
      for i := 0 to |ings|
        invariant vertices.Keys == old(vertices).Keys
        invariant LinkAll(old(State()), title, ings) == LinkAll(State(), title, ings[i..])
      {
        assert ings[i..][1..] == ings[i + 1..];
        var ingredient := ings[i];
        vertices := vertices[title := vertices[title].(neighbours := vertices[title].neighbours + {ingredient})];
        vertices := vertices[ingredient := vertices[ingredient].(neighbours := vertices[ingredient].neighbours + {title})];
      }
      status := Done;
    }

    /** `check_exist`: whether `item` is a key of the graph. */
    method CheckExist(item: string) returns (found: bool)
      ensures found <==> item in vertices
    {
      found := item in vertices;
    }

    /** `get_item`: the vertex of `name`, or `None` when there is none. */
    method GetItem(name: string) returns (v: Option<Vertex>)
      ensures v.Some? <==> name in vertices
      ensures v.Some? ==> v.value == vertices[name]
    {
      if name in vertices {
        v := Some(vertices[name]);
      } else {
        v := None;
      }
    }

    /** `filter_kind`: the vertices of kind `kind` (every vertex for `''`),
        in insertion order. */
    method FilterKind(kind: string) returns (filtered: seq<Vertex>)
      requires Valid()
      ensures filtered == OfKind(State(), kind)
    {
      var t := State();
      filtered := [];
      if kind == "" {
        for i := 0 to |order|
          invariant filtered == VerticesAt(t, KindKeys(t, order[..i], kind))
        {
          KindKeysStep(t, order, i, kind);
          filtered := filtered + [vertices[order[i]]];
        }
        assert order[..|order|] == order;
        return;
      }
      for i := 0 to |order|
        invariant filtered == VerticesAt(t, KindKeys(t, order[..i], kind))
      {
        KindKeysStep(t, order, i, kind);
        var vertex := vertices[order[i]];
        if KindName(KindOf(vertex)) == kind {
          filtered := filtered + [vertex];
        }
      }
      assert order[..|order|] == order;
    }

    /** `get_most_connected_ingredients`: the `(depth, key, price)` of every
        ingredient vertex, sorted in reverse, at most ten of them. */
    method GetMostConnectedIngredients() returns (depthScores: seq<DepthScore>)
      requires Valid()
      ensures depthScores == MostConnected(State())
    {
      var t := State();
      var scores: seq<DepthScore> := [];
      for i := 0 to |order|
        invariant scores == DepthScores(t, order[..i])
      {
        assert order[..i + 1][..i] == order[..i];
        var item := order[i];
        if vertices[item].node.IngredientNode? {
          scores := scores + [(Depth(vertices[item]), item, vertices[item].price)];
        }
      }
      assert order[..|order|] == order;
      scores := SortDesc(scores, TripleAtLeast);
      depthScores := Take(scores, 10);
    }

    /** `get_similar`: the similarity of every other ingredient to
        `ingredient`, as `(score, key)` pairs sorted in reverse, at most
        five; `ValueError` when `ingredient` is not an ingredient vertex. */
    method GetSimilar(ingredient: string) returns (r: Result<seq<SimilarityScore>, Failure>)
      requires Valid()
      ensures r == Similar(State(), ingredient)
    {
      var t := State();
      var target := GetItem(ingredient);
      var ingredientVertices := FilterKind("ingredient");
      var ingredients := Items(ingredientVertices);
      var removed := RemoveFirst(ingredients, ingredient);
      if removed.Err? {
        return Err(removed.error);
      }
      var others := removed.value;
      IngredientKeysSpec(t);
      RemoveFirstMembers(ingredients, ingredient);
      var scores := ScoreAgainst(target.value, ingredient, others);
      scores := SortDesc(scores, PairAtLeast);
      r := Ok(Take(scores, 5));
    }

    /** The scoring loop of `get_similar`: the similarity of each of `others`
        to the vertex `target` of `key`, paired with its key, in order. */
    method ScoreAgainst(target: Vertex, key: string, others: seq<string>) returns (scores: seq<SimilarityScore>)
      requires key in vertices && target == vertices[key]
      requires forall k | k in others :: k in vertices
      ensures scores == SimilarityScores(State(), key, others)
    {
      scores := [];
      for i := 0 to |others|
        invariant scores == SimilarityScores(State(), key, others[..i])
      {
        assert others[..i + 1][..i] == others[..i];
        var other := GetItem(others[i]);
        scores := scores + [(Similarity(target, other.value), others[i])];
      }
      assert others[..|others|] == others;
    }

    /** The scoring pass of `filter_recipes`: each recipe with the number of
        the user's ingredients among its neighbours, kept when positive; every
        recipe with score 1 when the user gives none. */
    method ScoreRecipes(recipe: seq<Vertex>, userInput: seq<string>) returns (possRecipes: seq<Candidate>)
      ensures possRecipes == Scored(recipe, userInput)
    {
      possRecipes := [];
      if userInput != [] {
        for i := 0 to |recipe|
          invariant possRecipes == Scored(recipe[..i], userInput)
        {
          assert recipe[..i + 1][..i] == recipe[..i];
          var v := recipe[i];
          var count := 0;
          for j := 0 to |userInput|
            invariant count == Hits(userInput[..j], v.neighbours)
          {
            assert userInput[..j + 1][..j] == userInput[..j];
            if userInput[j] in v.neighbours {
              count := count + 1;
            }
          }
          assert userInput[..|userInput|] == userInput;
          if count > 0 {
            possRecipes := possRecipes + [Candidate(v.item, count)];
          }
        }
      } else {
        for i := 0 to |recipe|
          invariant possRecipes == Scored(recipe[..i], userInput)
        {
          assert recipe[..i + 1][..i] == recipe[..i];
          possRecipes := possRecipes + [Candidate(recipe[i].item, 1)];
        }
      }
      assert recipe[..|recipe|] == recipe;
    }

    /** The price filter of `filter_recipes`, over the sorted candidates:
        a positive score and, when a ceiling is given, a price within it. */
    method PriceFilter(sortedByValues: seq<Candidate>, priceLimit: Option<real>) returns (finalRecipes: seq<Candidate>)
      requires forall c | c in sortedByValues :: c.title in vertices
      ensures finalRecipes == Keep(sortedByValues, PriceTest(State(), priceLimit))
    {
      var test := PriceTest(State(), priceLimit);
      finalRecipes := [];
      if priceLimit.Some? {
        for i := 0 to |sortedByValues|
          invariant finalRecipes == Keep(sortedByValues[..i], test)
        {
          assert sortedByValues[..i + 1][..i] == sortedByValues[..i];
          var c := sortedByValues[i];
          assert c in sortedByValues;
          if c.score > 0 && vertices[c.title].price <= priceLimit.value {
            finalRecipes := finalRecipes + [c];
          }
        }
      } else {
        for i := 0 to |sortedByValues|
          invariant finalRecipes == Keep(sortedByValues[..i], test)
        {
          assert sortedByValues[..i + 1][..i] == sortedByValues[..i];
          var c := sortedByValues[i];
          if c.score > 0 {
            finalRecipes := finalRecipes + [c];
          }
        }
      }
      assert sortedByValues[..|sortedByValues|] == sortedByValues;
    }

    /** `filter_recipes`, with the mean ratings given as `ratings`: score,
        sort by score in reverse (stable), filter by price and by rating,
        and build a new graph from the first `limit` survivors; an empty
        graph when none survives. */
    method FilterRecipes(limit: int, userInput: seq<string>, prices: PriceTable, priceLimit: Option<real>,
                         ratings: map<string, real>, reviewLimit: Option<int>) returns (g: Graph, status: Status)
      requires Valid()
      ensures fresh(g) && g.Valid()
      ensures Outcome(g.State(), status) == Recommended(State(), limit, userInput, prices, priceLimit, ratings, reviewLimit)
    {
      var finalRecipes := RankRecipes(userInput, priceLimit, ratings, reviewLimit);
      if finalRecipes == [] {
        g := new Graph();
        status := Done;
        return;
      }
      ChosenRecipeKeys(State(), limit, userInput, priceLimit, ratings, reviewLimit);
      g, status := InducedSubgraph(TitlesOf(Take(finalRecipes, limit)), prices);
    }

    /** The ranking half of `filter_recipes`: score the recipes against the
        user's ingredients, sort by score, then keep those within the price
        ceiling and, when one is given, above the rating floor. */
    method RankRecipes(userInput: seq<string>, priceLimit: Option<real>, ratings: map<string, real>,
                       reviewLimit: Option<int>) returns (finalRecipes: seq<Candidate>)
      requires Valid()
      ensures finalRecipes == Survivors(State(), userInput, priceLimit, ratings, reviewLimit)
    {
      var t := State();
      var recipe := FilterKind("recipe");
      var possRecipes := ScoreRecipes(recipe, userInput);
      assert possRecipes == Candidates(t, userInput);
      var sortedByValues := SortDesc(possRecipes, ScoreAtLeast);
      CandidatesMembers(t, userInput);
      SortDescMembers(possRecipes, ScoreAtLeast);
      finalRecipes := PriceFilter(sortedByValues, priceLimit);
      if reviewLimit.Some? {
        finalRecipes := Keep(finalRecipes, RatingTest(ratings, reviewLimit));
      } else {
        KeepAll(finalRecipes, RatingTest(ratings, reviewLimit));
      }
    }

    /** The rebuilding loop of `filter_recipes`: a new graph, and for each of
        the recipe keys `keys`, `add_vertex` of its recipe and `add_edge` of
        its title; the first exception ends the loop. */
    method InducedSubgraph(keys: seq<string>, prices: PriceTable) returns (g: Graph, status: Status)
      requires Valid()
      requires forall k | k in keys :: k in vertices && vertices[k].node.RecipeNode?
      ensures fresh(g) && g.Valid()
      ensures Outcome(g.State(), status) == Built(EmptyTable(), DetailsAt(State(), keys), prices)
    {
      var details := DetailsAt(State(), keys);
      g := new Graph();
      status := g.AddRecipes(details, prices);
    }

    /** The loop shared by `load_graph` and `filter_recipes`: for each recipe,
        `add_vertex` then `add_edge` of its title; the first exception ends
        the loop. */
    method AddRecipes(recipes: seq<Recipe>, prices: PriceTable) returns (status: Status)
      requires Valid()
      modifies this
      ensures Valid()
      ensures Outcome(State(), status) == Built(old(State()), recipes, prices)
    {
      status := Done;
      for i := 0 to |recipes|
        invariant Valid() && status == Done
        invariant Built(old(State()), recipes, prices) == Built(State(), recipes[i..], prices)
      {
        assert recipes[i..][1..] == recipes[i + 1..];
        var recipe := recipes[i];
        status := AddVertex(recipe, prices);
        if status.Raised? {
          return;
        }
        status := AddEdge(recipe.title);
        if status.Raised? {
          return;
        }
      }
    }
  }

  /** One more key of the order adds its vertex when it matches. */
  lemma KindKeysStep(t: Table, keys: seq<string>, i: nat, kind: string)
    requires i < |keys| && keys[i] in t.vertices
    requires forall k | k in keys :: k in t.vertices
    ensures forall k | k in KindKeys(t, keys[..i], kind) :: k in t.vertices
    ensures VerticesAt(t, KindKeys(t, keys[..i + 1], kind)) ==
            VerticesAt(t, KindKeys(t, keys[..i], kind)) +
            (if Matches(t.vertices[keys[i]], kind) then [t.vertices[keys[i]]] else [])
  {
    assert keys[..i + 1][..i] == keys[..i];
    KeepMembers(keys[..i], KindTest(t, kind));
    KeepMembers(keys[..i + 1], KindTest(t, kind));
  }

  /** The recipes of `to_recipe_class`: every cleaned record but the first. */
  function LoadedRecipes(cleanedCsv: seq<Record>): (r: seq<Recipe>)
    ensures |r| == if cleanedCsv == [] then 0 else |cleanedCsv| - 1
    ensures forall k | 0 <= k < |r| :: r[k] == RecipeOf(cleanedCsv[k + 1])
  {
    if cleanedCsv == [] then [] else seq(|cleanedCsv| - 1, k requires 0 <= k < |cleanedCsv| - 1 => RecipeOf(cleanedCsv[k + 1]))
  }

  /** `load_graph`, with the rows, the vocabulary and the price table already
      read: clean the rows, turn the records into recipes, and for each
      recipe `add_vertex` then `add_edge`. Whatever the outcome, the graph
      keeps its invariant and every recipe in it is linked to its
      ingredients. */
  method LoadGraph(rows: seq<Row>, foods: seq<string>, prices: PriceTable) returns (g: Graph, status: Status)
    ensures fresh(g) && g.Valid() && Complete(g.State())
    ensures Cleaned(rows, foods, prices).Err? ==>
              g.State() == EmptyTable() && status == Raised(Cleaned(rows, foods, prices).error)
    ensures Cleaned(rows, foods, prices).Ok? ==>
              Outcome(g.State(), status) == Built(EmptyTable(), LoadedRecipes(Cleaned(rows, foods, prices).value), prices)
  {
    g := new Graph();
    EmptyWellFormed();
    var cleanedCsv := CleanCsv(rows, foods, prices);
    if cleanedCsv.Err? {
      return g, Raised(cleanedCsv.error);
    }
    var recipeList := ToRecipes(cleanedCsv.value);
    assert recipeList == LoadedRecipes(cleanedCsv.value);
    BuiltWellFormed(EmptyTable(), recipeList, prices);
    status := g.AddRecipes(recipeList, prices);
  }
}

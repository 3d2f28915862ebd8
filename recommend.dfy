/**
  Recommendation: the recipes that best match the ingredients a user has,
  under an optional price ceiling and an optional rating floor, rebuilt as
  a graph of their own.
*/
module Recommend {
  import opened Wrappers
  import opened Normalizer
  import opened Catalog
  import opened Vertices
  import opened Tables
  import opened Ranking
  import opened Queries

  /** An entry of `poss_recipes`: a recipe key and its score. */
  datatype Candidate = Candidate(title: string, score: nat)

  /** The number of positions of `input` that hold a neighbour; an
      ingredient the user gives twice counts twice. */
  function Hits(input: seq<string>, neighbours: set<string>): (n: nat)
    ensures n <= |input|
  {
    if input == [] then 0
    else Hits(input[..|input| - 1], neighbours) + (if input[|input| - 1] in neighbours then 1 else 0)
  }

  /** The score of a recipe vertex: 1 for every recipe when the user gives no
      ingredient, otherwise its hits. */
  function ScoreOf(input: seq<string>, v: Vertex): nat {
    if input == [] then 1 else Hits(input, v.neighbours)
  }

  /** `poss_recipes` as its items: the recipes with a positive score, in the
      order of `vs`. */
  function Scored(vs: seq<Vertex>, input: seq<string>): seq<Candidate> {
    if vs == [] then []
    else
      var v := vs[|vs| - 1];
      Scored(vs[..|vs| - 1], input) + (if ScoreOf(input, v) > 0 then [Candidate(v.item, ScoreOf(input, v))] else [])
  }

  /** The sort key of `sorted(..., key=score, reverse=True)`. */
  predicate ScoreAtLeast(a: Candidate, b: Candidate) {
    a.score >= b.score
  }

  lemma ScoreTotalPreorder()
    ensures TotalPreorder(ScoreAtLeast)
  {
  }

  /** The price filter: a positive score and, when a ceiling is given, a
      price at most the ceiling. */
  function PriceTest(t: Table, priceLimit: Option<real>): Candidate -> bool {
    (c: Candidate) => c.score > 0 && (priceLimit.None? || (c.title in t.vertices && t.vertices[c.title].price <= priceLimit.value))
  }

  /** The rating filter: when a floor is given, a rating that is present and
      at least the floor. */
  function RatingTest(ratings: map<string, real>, reviewLimit: Option<int>): Candidate -> bool {
    (c: Candidate) => reviewLimit.None? || (c.title in ratings && ratings[c.title] >= reviewLimit.value as real)
  }

  /** The candidates of the recipe vertices, in insertion order. */
  function Candidates(t: Table, input: seq<string>): seq<Candidate>
    requires Ordered(t)
  {
    Scored(OfKind(t, "recipe"), input)
  }

  /** `final_recipes`: the candidates sorted by score, then filtered by
      price, then by rating. */
  function Survivors(t: Table, input: seq<string>, priceLimit: Option<real>,
                     ratings: map<string, real>, reviewLimit: Option<int>): seq<Candidate>
    requires Ordered(t)
  {
    Keep(Keep(SortDesc(Candidates(t, input), ScoreAtLeast), PriceTest(t, priceLimit)), RatingTest(ratings, reviewLimit))
  }

  function TitlesOf(cs: seq<Candidate>): (r: seq<string>)
    ensures |r| == |cs| && forall i | 0 <= i < |cs| :: r[i] == cs[i].title
  {
    seq(|cs|, i requires 0 <= i < |cs| => cs[i].title)
  }

  /** The recipes held by the vertices at `keys`. */
  function DetailsAt(t: Table, keys: seq<string>): (r: seq<Recipe>)
    requires forall k | k in keys :: k in t.vertices && t.vertices[k].node.RecipeNode?
    ensures |r| == |keys| && forall i | 0 <= i < |keys| :: r[i] == t.vertices[keys[i]].node.recipe
  {
    seq(|keys|, i requires 0 <= i < |keys| => t.vertices[keys[i]].node.recipe)
  }

  /** `filter_recipes`: an empty graph when nothing survives, otherwise a new
      graph built from the first `limit` survivors, with `add_vertex` and
      `add_edge` for each. */
  function Recommended(t: Table, limit: int, input: seq<string>, prices: PriceTable, priceLimit: Option<real>,
                       ratings: map<string, real>, reviewLimit: Option<int>): Outcome
    requires WellFormed(t)
  {
    var s := Survivors(t, input, priceLimit, ratings, reviewLimit);
    if s == [] then Outcome(EmptyTable(), Done)
    else
      var chosen := TitlesOf(Take(s, limit));
      SurvivorsMembers(t, input, priceLimit, ratings, reviewLimit);
      CandidatesMembers(t, input);
      Built(EmptyTable(), DetailsAt(t, chosen), prices)
  }

  // ---------------------------------------------------------------------------
  // Scores
  // ---------------------------------------------------------------------------

  /** A recipe has hits exactly when one of the user's ingredients is among
      its neighbours. */
  lemma {:induction false} HitsPositive(input: seq<string>, neighbours: set<string>)
    ensures Hits(input, neighbours) > 0 <==> exists j :: 0 <= j < |input| && input[j] in neighbours
  {
    if input != [] {
      var p := input[..|input| - 1];
      HitsPositive(p, neighbours);
      if Hits(p, neighbours) > 0 {
        var j :| 0 <= j < |p| && p[j] in neighbours;
        assert input[j] in neighbours;
      }
      if exists j :: 0 <= j < |input| && input[j] in neighbours {
        var j :| 0 <= j < |input| && input[j] in neighbours;
        if j < |p| {
          assert p[j] in neighbours;
        }
      }
    }
  }

  /** A candidate is a vertex of `vs` with its score, when that is
      positive. */
  lemma {:induction false} ScoredMembers(t: Table, vs: seq<Vertex>, input: seq<string>)
    requires forall v | v in vs :: v.item in t.vertices && t.vertices[v.item] == v
    ensures forall c | c in Scored(vs, input) ::
              c.title in t.vertices && t.vertices[c.title] in vs &&
              c.score == ScoreOf(input, t.vertices[c.title]) && c.score > 0
    ensures forall v | v in vs && ScoreOf(input, v) > 0 :: Candidate(v.item, ScoreOf(input, v)) in Scored(vs, input)
  {
    if vs != [] {
      var p := vs[..|vs| - 1];
      assert vs == p + [vs[|vs| - 1]];
      ScoredMembers(t, p, input);
    }
  }

  /** Over vertices with distinct keys, no title is a candidate twice. */
  lemma {:induction false} ScoredDistinct(vs: seq<Vertex>, input: seq<string>)
    requires Distinct(Items(vs))
    ensures Distinct(TitlesOf(Scored(vs, input)))
    ensures forall c | c in Scored(vs, input) :: c.title in Items(vs)
  {
    if vs != [] {
      var n := |vs| - 1;
      var p := vs[..n];
      assert Items(p) == Items(vs)[..n];
      ScoredDistinct(p, input);
      var before := Scored(p, input);
      if ScoreOf(input, vs[n]) > 0 {
        forall i | 0 <= i < n ensures Items(p)[i] != vs[n].item {
          assert Items(vs)[i] != Items(vs)[n];
        }
        var r := Scored(vs, input);
        forall i, j | 0 <= i < j < |r| ensures TitlesOf(r)[i] != TitlesOf(r)[j] {
          assert r[i] in before;
          if j < |before| {
            assert TitlesOf(before)[i] != TitlesOf(before)[j];
          }
        }
      }
    }
  }

  // ---------------------------------------------------------------------------
  // Survivors
  // ---------------------------------------------------------------------------

  /** The candidates are the recipe vertices with a positive score, each
      with that score. */
  lemma CandidatesMembers(t: Table, input: seq<string>)
    requires Ordered(t) && KeysMatch(t)
    ensures forall c | c in Candidates(t, input) ::
              c.title in t.vertices && t.vertices[c.title].node.RecipeNode? &&
              c.score == ScoreOf(input, t.vertices[c.title]) && c.score > 0
    ensures forall k | k in t.vertices && t.vertices[k].node.RecipeNode? && ScoreOf(input, t.vertices[k]) > 0 ::
              Candidate(k, ScoreOf(input, t.vertices[k])) in Candidates(t, input)
  {
    var vs := OfKind(t, "recipe");
    OfKindMembers(t, "recipe");
    ScoredMembers(t, vs, input);
    forall k | k in t.vertices && t.vertices[k].node.RecipeNode? && ScoreOf(input, t.vertices[k]) > 0
      ensures Candidate(k, ScoreOf(input, t.vertices[k])) in Candidates(t, input)
    {
      var v := t.vertices[k];
      assert Matches(v, "recipe");
      assert v in vs;
    }
  }

  /** A survivor is a candidate that passes both filters, and every such
      candidate survives. */
  lemma SurvivorsMembers(t: Table, input: seq<string>, priceLimit: Option<real>,
                         ratings: map<string, real>, reviewLimit: Option<int>)
    requires Ordered(t)
    ensures forall c | c in Survivors(t, input, priceLimit, ratings, reviewLimit) ::
              c in Candidates(t, input) && PriceTest(t, priceLimit)(c) && RatingTest(ratings, reviewLimit)(c)
    ensures forall c | c in Candidates(t, input) && PriceTest(t, priceLimit)(c) && RatingTest(ratings, reviewLimit)(c) ::
              c in Survivors(t, input, priceLimit, ratings, reviewLimit)
  {
    var sorted := SortDesc(Candidates(t, input), ScoreAtLeast);
    SortDescMembers(Candidates(t, input), ScoreAtLeast);
    KeepMembers(sorted, PriceTest(t, priceLimit));
    KeepMembers(Keep(sorted, PriceTest(t, priceLimit)), RatingTest(ratings, reviewLimit));
  }

  // ---------------------------------------------------------------------------
  // The chosen recipes
  // ---------------------------------------------------------------------------

  /** The survivors `filter_recipes` keeps: the first `limit` of them. */
  function Chosen(t: Table, limit: int, input: seq<string>, priceLimit: Option<real>,
                  ratings: map<string, real>, reviewLimit: Option<int>): seq<Candidate>
    requires Ordered(t)
  {
    Take(Survivors(t, input, priceLimit, ratings, reviewLimit), limit)
  }

  /** The survivors are in non-increasing order of score. */
  lemma SurvivorsSorted(t: Table, input: seq<string>, priceLimit: Option<real>,
                        ratings: map<string, real>, reviewLimit: Option<int>)
    requires Ordered(t)
    ensures SortedDesc(Survivors(t, input, priceLimit, ratings, reviewLimit), ScoreAtLeast)
  {
    var sorted := SortDesc(Candidates(t, input), ScoreAtLeast);
    ScoreTotalPreorder();
    SortDescSorted(Candidates(t, input), ScoreAtLeast);
    KeepSorted(sorted, PriceTest(t, priceLimit), ScoreAtLeast);
    KeepSorted(Keep(sorted, PriceTest(t, priceLimit)), RatingTest(ratings, reviewLimit), ScoreAtLeast);
  }

  /** The first `limit` survivors are chosen, or all of them when fewer
      survive, each a recipe vertex with its true
      positive score, sharing an ingredient with the user when the user gives
      any, within the price ceiling and at or above the rating floor when
      these are given; they are in non-increasing order of score, no
      survivor left out scores higher than one chosen, and every recipe that
      scores and passes both filters survives. */
  lemma ChosenSpec(t: Table, limit: int, input: seq<string>, priceLimit: Option<real>,
                   ratings: map<string, real>, reviewLimit: Option<int>)
    requires Ordered(t) && KeysMatch(t)
    ensures var s := Survivors(t, input, priceLimit, ratings, reviewLimit);
            var c := Chosen(t, limit, input, priceLimit, ratings, reviewLimit);
            c <= s && |c| == (if limit <= 0 then 0 else if limit < |s| then limit else |s|) &&
            (forall x | x in c ::
               x.title in t.vertices && t.vertices[x.title].node.RecipeNode? &&
               x.score == ScoreOf(input, t.vertices[x.title]) && x.score > 0 &&
               (input != [] ==> exists j :: 0 <= j < |input| && input[j] in t.vertices[x.title].neighbours) &&
               (priceLimit.Some? ==> t.vertices[x.title].price <= priceLimit.value) &&
               (reviewLimit.Some? ==> x.title in ratings && ratings[x.title] >= reviewLimit.value as real)) &&
            SortedDesc(c, ScoreAtLeast) &&
            (forall x, y | x in s && x !in c && y in c :: y.score >= x.score) &&
            (forall k | k in t.vertices && t.vertices[k].node.RecipeNode? && ScoreOf(input, t.vertices[k]) > 0 &&
                        (priceLimit.Some? ==> t.vertices[k].price <= priceLimit.value) &&
                        (reviewLimit.Some? ==> k in ratings && ratings[k] >= reviewLimit.value as real) ::
               Candidate(k, ScoreOf(input, t.vertices[k])) in s)
  {
    ChosenEntries(t, limit, input, priceLimit, ratings, reviewLimit);
    ChosenRanked(t, limit, input, priceLimit, ratings, reviewLimit);
    SurvivorsComplete(t, input, priceLimit, ratings, reviewLimit);
  }

  /** Each chosen entry is a scoring recipe that passes both filters. */
  lemma ChosenEntries(t: Table, limit: int, input: seq<string>, priceLimit: Option<real>,
                      ratings: map<string, real>, reviewLimit: Option<int>)
    requires Ordered(t) && KeysMatch(t)
    ensures forall x | x in Chosen(t, limit, input, priceLimit, ratings, reviewLimit) ::
               x.title in t.vertices && t.vertices[x.title].node.RecipeNode? &&
               x.score == ScoreOf(input, t.vertices[x.title]) && x.score > 0 &&
               (input != [] ==> exists j :: 0 <= j < |input| && input[j] in t.vertices[x.title].neighbours) &&
               (priceLimit.Some? ==> t.vertices[x.title].price <= priceLimit.value) &&
               (reviewLimit.Some? ==> x.title in ratings && ratings[x.title] >= reviewLimit.value as real)
  {
    var s := Survivors(t, input, priceLimit, ratings, reviewLimit);
    var c := Take(s, limit);
    CandidatesMembers(t, input);
    SurvivorsMembers(t, input, priceLimit, ratings, reviewLimit);
    forall x | x in c && input != []
      ensures exists j :: 0 <= j < |input| && input[j] in t.vertices[x.title].neighbours
    {
      HitsPositive(input, t.vertices[x.title].neighbours);
    }
  }

  /** The chosen entries are the first of the survivors, in non-increasing
      order of score, and no survivor left out scores higher. */
  lemma ChosenRanked(t: Table, limit: int, input: seq<string>, priceLimit: Option<real>,
                     ratings: map<string, real>, reviewLimit: Option<int>)
    requires Ordered(t)
    ensures var s := Survivors(t, input, priceLimit, ratings, reviewLimit);
            var c := Chosen(t, limit, input, priceLimit, ratings, reviewLimit);
            c <= s && |c| == (if limit <= 0 then 0 else if limit < |s| then limit else |s|) &&
            SortedDesc(c, ScoreAtLeast) &&
            (forall x, y | x in s && x !in c && y in c :: y.score >= x.score)
  {
    var s := Survivors(t, input, priceLimit, ratings, reviewLimit);
    var c := Take(s, limit);
    SurvivorsSorted(t, input, priceLimit, ratings, reviewLimit);
    PrefixOfSorted(s, |c|, ScoreAtLeast);
    assert c == s[..|c|];
  }

  /** Every recipe that scores and passes both filters survives. */
  lemma SurvivorsComplete(t: Table, input: seq<string>, priceLimit: Option<real>,
                          ratings: map<string, real>, reviewLimit: Option<int>)
    requires Ordered(t) && KeysMatch(t)
    ensures forall k | k in t.vertices && t.vertices[k].node.RecipeNode? && ScoreOf(input, t.vertices[k]) > 0 &&
                       (priceLimit.Some? ==> t.vertices[k].price <= priceLimit.value) &&
                       (reviewLimit.Some? ==> k in ratings && ratings[k] >= reviewLimit.value as real) ::
              Candidate(k, ScoreOf(input, t.vertices[k])) in Survivors(t, input, priceLimit, ratings, reviewLimit)
  {
    var s := Survivors(t, input, priceLimit, ratings, reviewLimit);
    CandidatesMembers(t, input);
    SurvivorsMembers(t, input, priceLimit, ratings, reviewLimit);
    forall k | k in t.vertices && t.vertices[k].node.RecipeNode? && ScoreOf(input, t.vertices[k]) > 0 &&
               (priceLimit.Some? ==> t.vertices[k].price <= priceLimit.value) &&
               (reviewLimit.Some? ==> k in ratings && ratings[k] >= reviewLimit.value as real)
      ensures Candidate(k, ScoreOf(input, t.vertices[k])) in s
    {
      var x := Candidate(k, ScoreOf(input, t.vertices[k]));
      assert PriceTest(t, priceLimit)(x) && RatingTest(ratings, reviewLimit)(x);
    }
  }

  /** Ties keep the order of the scoring pass: the chosen recipes of any one
      score appear in the order in which `filter_kind('recipe')` lists them. */
  lemma ChosenStable(t: Table, limit: int, input: seq<string>, priceLimit: Option<real>,
                     ratings: map<string, real>, reviewLimit: Option<int>, p: Candidate)
    requires Ordered(t)
    ensures Tier(Chosen(t, limit, input, priceLimit, ratings, reviewLimit), ScoreAtLeast, p) <=
            Keep(Keep(Tier(Candidates(t, input), ScoreAtLeast, p), PriceTest(t, priceLimit)),
                 RatingTest(ratings, reviewLimit))
  {
    var sorted := SortDesc(Candidates(t, input), ScoreAtLeast);
    var pf := PriceTest(t, priceLimit);
    var rf := RatingTest(ratings, reviewLimit);
    ScoreTotalPreorder();
    SortDescStable(Candidates(t, input), ScoreAtLeast, p);
    TierKeep(sorted, pf, ScoreAtLeast, p);
    TierKeep(Keep(sorted, pf), rf, ScoreAtLeast, p);
    TierTake(Survivors(t, input, priceLimit, ratings, reviewLimit), limit, ScoreAtLeast, p);
  }

  // ---------------------------------------------------------------------------
  // The graph filter_recipes returns
  // ---------------------------------------------------------------------------

  /** No recipe lists a recipe among its ingredients: recipe titles and
      ingredient names do not clash. */
  ghost predicate Bipartite(t: Table) {
    forall r, i | Uses(t, r, i) && i in t.vertices :: t.vertices[i].node.IngredientNode?
  }

  /** Every recipe's ingredients are priced in `prices`, as they were when
      the graph was built from the same price table. */
  ghost predicate PricedRecipes(t: Table, prices: PriceTable) {
    forall k | k in t.vertices && t.vertices[k].node.RecipeNode? :: AllPriced(t.vertices[k].node.recipe.cleaned, prices)
  }

  /** The recipes of chosen keys, from a bipartite graph, can be rebuilt: they
      are priced and no title is another one's ingredient. */
  lemma DetailsSeparate(t: Table, keys: seq<string>, prices: PriceTable)
    requires WellFormed(t) && Bipartite(t) && PricedRecipes(t, prices)
    requires forall k | k in keys :: k in t.vertices && t.vertices[k].node.RecipeNode?
    ensures Separate(EmptyTable(), DetailsAt(t, keys))
    ensures forall rc | rc in DetailsAt(t, keys) :: AllPriced(rc.cleaned, prices)
  {
    var ds := DetailsAt(t, keys);
    assert forall rc | rc in ds :: exists j :: 0 <= j < |keys| && ds[j] == rc;
    forall a, b | a in ds && b in ds ensures a.title !in b.cleaned {
      var ja :| 0 <= ja < |keys| && ds[ja] == a;
      var jb :| 0 <= jb < |keys| && ds[jb] == b;
      if a.title in b.cleaned {
        assert Uses(t, keys[jb], keys[ja]);
        assert false;
      }
    }
  }

  /** The titles of the recipes of chosen keys are those keys, and their
      ingredients are the ingredients the graph gives those keys. */
  lemma DetailsKeys(t: Table, keys: seq<string>)
    requires WellFormed(t)
    requires forall k | k in keys :: k in t.vertices && t.vertices[k].node.RecipeNode?
    ensures RecipeTitles(DetailsAt(t, keys)) == set k | k in keys
    ensures forall i :: i in AllIngredients(DetailsAt(t, keys)) <==> exists r :: r in keys && Uses(t, r, i)
  {
    var ds := DetailsAt(t, keys);
    forall rc | rc in ds ensures rc.title in keys {
      var j :| 0 <= j < |keys| && ds[j] == rc;
    }
    forall k | k in keys ensures k in RecipeTitles(ds) {
      var j :| 0 <= j < |keys| && keys[j] == k;
      assert ds[j].title == k;
    }
    forall i | i in AllIngredients(ds) ensures exists r :: r in keys && Uses(t, r, i) {
      var rc :| rc in ds && i in rc.cleaned;
      var j :| 0 <= j < |keys| && ds[j] == rc;
      assert Uses(t, keys[j], i);
    }
    forall i | exists r :: r in keys && Uses(t, r, i) ensures i in AllIngredients(ds) {
      var r :| r in keys && Uses(t, r, i);
      var j :| 0 <= j < |keys| && keys[j] == r;
      assert ds[j] in ds && i in ds[j].cleaned;
    }
  }

  /** A graph built from nothing keys each recipe by its title. */
  lemma BuiltRecipesSound(recipes: seq<Recipe>, prices: PriceTable)
    ensures RecipesSound(Built(EmptyTable(), recipes, prices).table)
  {
    EmptyWellFormed();
    BuiltWellFormed(EmptyTable(), recipes, prices);
  }

  /** The first `limit` survivors are recipe keys of the graph. */
  lemma ChosenRecipeKeys(t: Table, limit: int, input: seq<string>, priceLimit: Option<real>,
                         ratings: map<string, real>, reviewLimit: Option<int>)
    requires Ordered(t) && KeysMatch(t)
    ensures forall k | k in TitlesOf(Take(Survivors(t, input, priceLimit, ratings, reviewLimit), limit)) ::
              k in t.vertices && t.vertices[k].node.RecipeNode?
  {
    var s := Survivors(t, input, priceLimit, ratings, reviewLimit);
    var c := TitlesOf(Take(s, limit));
    SurvivorsMembers(t, input, priceLimit, ratings, reviewLimit);
    CandidatesMembers(t, input);
    forall k | k in c ensures k in t.vertices && t.vertices[k].node.RecipeNode? {
      var j :| 0 <= j < |c| && c[j] == k;
      assert Take(s, limit)[j] == s[j];
      assert s[j] in s;
    }
  }

  /** Rebuilding from chosen recipe keys of a well-formed bipartite graph
      whose recipes are priced raises nothing, and its recipe vertices are
      the chosen ones. */
  lemma RebuiltRecipes(t: Table, c: seq<string>, prices: PriceTable)
    requires WellFormed(t) && Bipartite(t) && PricedRecipes(t, prices)
    requires forall k | k in c :: k in t.vertices && t.vertices[k].node.RecipeNode?
    ensures var u := Built(EmptyTable(), DetailsAt(t, c), prices);
            u.status == Done &&
            forall k | k in u.table.vertices :: u.table.vertices[k].node.RecipeNode? <==> k in c
  {
    var ds := DetailsAt(t, c);
    DetailsSeparate(t, c, prices);
    EmptyWellFormed();
    BuiltSucceeds(EmptyTable(), ds, prices);
  }

  /** The rebuilt graph's vertices are the chosen recipes and their
      ingredients. */
  lemma RebuiltKeys(t: Table, c: seq<string>, prices: PriceTable)
    requires WellFormed(t) && Bipartite(t) && PricedRecipes(t, prices)
    requires forall k | k in c :: k in t.vertices && t.vertices[k].node.RecipeNode?
    ensures var u := Built(EmptyTable(), DetailsAt(t, c), prices);
            forall k :: k in u.table.vertices <==> k in c || exists r :: r in c && Uses(t, r, k)
  {
    var ds := DetailsAt(t, c);
    RebuiltRecipes(t, c, prices);
    DetailsKeys(t, c);
    BuiltKeys(EmptyTable(), ds, prices);
  }

  /** The rebuilt graph carries each chosen recipe over unchanged. */
  lemma RebuiltNodes(t: Table, c: seq<string>, prices: PriceTable)
    requires WellFormed(t) && Bipartite(t) && PricedRecipes(t, prices)
    requires forall k | k in c :: k in t.vertices && t.vertices[k].node.RecipeNode?
    ensures var u := Built(EmptyTable(), DetailsAt(t, c), prices);
            forall k | k in c :: k in u.table.vertices && u.table.vertices[k].node == t.vertices[k].node
  {
    var ds := DetailsAt(t, c);
    var u := Built(EmptyTable(), ds, prices);
    RebuiltRecipes(t, c, prices);
    BuiltKeys(EmptyTable(), ds, prices);
    BuiltNodes(EmptyTable(), ds, prices);
    BuiltRecipesSound(ds, prices);
    forall k | k in c ensures k in u.table.vertices && u.table.vertices[k].node == t.vertices[k].node {
      var j :| 0 <= j < |c| && c[j] == k;
      assert ds[j].title == k && ds[j] in ds;
      NodeCarried(t, c, ds, u.table, k);
    }
  }

  /** A recipe vertex of `u` whose recipe is one of the details `ds` of the
      keys `c` in `t` is the vertex `t` holds under the same key. */
  lemma NodeCarried(t: Table, c: seq<string>, ds: seq<Recipe>, u: Table, k: string)
    requires RecipesSound(t) && RecipesSound(u)
    requires |ds| == |c|
    requires forall i | 0 <= i < |c| :: c[i] in t.vertices && t.vertices[c[i]].node.RecipeNode? &&
                                        ds[i] == t.vertices[c[i]].node.recipe
    requires k in u.vertices && u.vertices[k].node.RecipeNode? && u.vertices[k].node.recipe in ds
    ensures k in t.vertices && u.vertices[k].node == t.vertices[k].node
  {
    var rc := u.vertices[k].node.recipe;
    var j :| 0 <= j < |c| && ds[j] == rc;
    assert rc.title == k;
    assert rc.title == c[j];
  }

  function TitleOf(c: Candidate): string {
    c.title
  }

  /** No recipe is chosen twice. */
  lemma ChosenTitlesDistinct(t: Table, limit: int, input: seq<string>, priceLimit: Option<real>,
                             ratings: map<string, real>, reviewLimit: Option<int>)
    requires Ordered(t) && KeysMatch(t)
    ensures Distinct(TitlesOf(Chosen(t, limit, input, priceLimit, ratings, reviewLimit)))
  {
    var cs := Candidates(t, input);
    OfKindOrder(t, "recipe");
    ScoredDistinct(OfKind(t, "recipe"), input);
    assert KeysDistinct(cs, TitleOf) by {
      forall i, j | 0 <= i < j < |cs| ensures TitleOf(cs[i]) != TitleOf(cs[j]) {
        assert TitlesOf(cs)[i] != TitlesOf(cs)[j];
      }
    }
    var sorted := SortDesc(cs, ScoreAtLeast);
    SortDescKeysDistinct(cs, ScoreAtLeast, TitleOf);
    KeepKeysDistinct(sorted, PriceTest(t, priceLimit), TitleOf);
    KeepKeysDistinct(Keep(sorted, PriceTest(t, priceLimit)), RatingTest(ratings, reviewLimit), TitleOf);
    var s := Survivors(t, input, priceLimit, ratings, reviewLimit);
    TakeKeysDistinct(s, limit, TitleOf);
    var ch := Chosen(t, limit, input, priceLimit, ratings, reviewLimit);
    forall i, j | 0 <= i < j < |ch| ensures TitlesOf(ch)[i] != TitlesOf(ch)[j] {
      assert TitleOf(ch[i]) != TitleOf(ch[j]);
    }
  }

  /** A distinct sequence holding `x` and nothing else is `[x]`. */
  lemma SoleElement(s: seq<string>, x: string)
    requires Distinct(s) && x in s
    requires forall y | y in s :: y == x
    ensures s == [x]
  {
    assert s[0] in s;
    var rest := s[1..];
    assert forall y | y in rest :: y in s && y != s[0];
    assert s == [s[0]] + rest;
    FirstMember(rest);
  }

  lemma FirstMember(s: seq<string>)
    ensures s == [] || s[0] in s
  {
  }

  lemma DistinctSplit(a: seq<string>, b: seq<string>)
    requires Distinct(a + b)
    ensures Distinct(b) && forall y | y in b :: y !in a
  {
    forall i, j | 0 <= i < j < |b| ensures b[i] != b[j] {
      assert (a + b)[|a| + i] != (a + b)[|a| + j];
    }
    forall y | y in b ensures y !in a {
      var j :| 0 <= j < |b| && b[j] == y;
      forall i | 0 <= i < |a| ensures a[i] != y {
        assert (a + b)[i] != (a + b)[|a| + j];
      }
    }
  }

  /** The recipe test of `filter_kind`, on the node. */
  lemma RecipeTest(t: Table, k: string)
    ensures KindTest(t, "recipe")(k) <==> k in t.vertices && t.vertices[k].node.RecipeNode?
  {
    assert KindName(IngredientKind) != "recipe";
  }

  /** Keys of `t` that `e` keeps as recipes exactly when `t` has them as
      recipes pass the same recipe test in both. */
  lemma OldRecipeKeys(t: Table, e: Table, title: string)
    requires Ordered(t) && title !in t.vertices
    requires forall k | k in e.vertices ::
               e.vertices[k].node.RecipeNode? <==> (k in t.vertices && t.vertices[k].node.RecipeNode?) || k == title
    requires t.vertices.Keys <= e.vertices.Keys
    ensures Keep(t.order, KindTest(e, "recipe")) == Keep(t.order, KindTest(t, "recipe"))
  {
    forall k | k in t.order ensures KindTest(e, "recipe")(k) == KindTest(t, "recipe")(k) {
      RecipeTest(e, k);
      RecipeTest(t, k);
    }
    KeepSame(t.order, KindTest(e, "recipe"), KindTest(t, "recipe"));
  }

  /** Among distinct keys of `e` that are not keys of `t`, only `title` is
      a recipe, and it is among them. */
  lemma NewRecipeKeys(t: Table, e: Table, x: seq<string>, title: string)
    requires Distinct(x) && title in x
    requires forall y | y in x :: y in e.vertices && y !in t.vertices
    requires forall k | k in e.vertices ::
               e.vertices[k].node.RecipeNode? <==> (k in t.vertices && t.vertices[k].node.RecipeNode?) || k == title
    ensures Keep(x, KindTest(e, "recipe")) == [title]
  {
    var f := KindTest(e, "recipe");
    KeepDistinct(x, f);
    KeepMembers(x, f);
    forall y | y in Keep(x, f) ensures y == title {
      RecipeTest(e, y);
    }
    RecipeTest(e, title);
    SoleElement(Keep(x, f), title);
  }

  /** When `e` extends `t`'s order with new keys of which only `title` is a
      recipe, its recipe keys in insertion order are `t`'s and then `title`. */
  lemma RecipeKeysAppend(t: Table, e: Table, title: string)
    requires Ordered(t) && Ordered(e) && t.order <= e.order
    requires title in e.vertices && title !in t.vertices
    requires forall k | k in e.vertices ::
               e.vertices[k].node.RecipeNode? <==> (k in t.vertices && t.vertices[k].node.RecipeNode?) || k == title
    ensures Keep(e.order, KindTest(e, "recipe")) == Keep(t.order, KindTest(t, "recipe")) + [title]
  {
    var x := e.order[|t.order|..];
    assert e.order == t.order + x;
    KeepAppend(t.order, x, KindTest(e, "recipe"));
    OldRecipeKeys(t, e, title);
    DistinctSplit(t.order, x);
    assert title in x;
    NewRecipeKeys(t, e, x, title);
  }

  /** What the build loop needs to append the titles `c` of the recipes
      `ds` to the recipe keys of `t`: a well-formed table, separate and
      priced recipes, and distinct titles that are not keys yet. */
  ghost predicate Rebuildable(t: Table, ds: seq<Recipe>, c: seq<string>, prices: PriceTable) {
    WellFormed(t) && (forall rc | rc in ds :: AllPriced(rc.cleaned, prices)) && Separate(t, ds) &&
    |ds| == |c| && (forall j | 0 <= j < |c| :: ds[j].title == c[j] && c[j] !in t.vertices) && Distinct(c)
  }

  /** One turn of the build loop over rebuildable recipes appends the first
      title to the recipe keys in insertion order and leaves the rest
      rebuildable. */
  lemma OrderTurn(t: Table, ds: seq<Recipe>, c: seq<string>, prices: PriceTable)
    requires Rebuildable(t, ds, c, prices) && ds != []
    ensures var e := WithEdges(WithVertex(t, ds[0], prices).table, ds[0].title).table;
            Rebuildable(e, ds[1..], c[1..], prices) &&
            Built(t, ds, prices) == Built(e, ds[1..], prices) &&
            Keep(e.order, KindTest(e, "recipe")) == Keep(t.order, KindTest(t, "recipe")) + [c[0]]
  {
    var rc := ds[0];
    assert rc in ds;
    SeparateStep(t, ds, prices);
    var a := WithVertex(t, rc, prices);
    var e := WithEdges(a.table, rc.title).table;
    WithVertexKeys(t, rc, prices);
    WithVertexExtends(t, rc, prices);
    RecipeKeysAppend(t, e, rc.title);
    TailRecipes(ds, c, prices);
    forall j | 0 <= j < |c| - 1 ensures c[1..][j] !in e.vertices {
      assert c[j + 1] != c[0];
      assert ds[j + 1] in ds;
    }
  }

  /** What the build loop lemma asks of its recipes holds of their tail. */
  lemma TailRecipes(ds: seq<Recipe>, c: seq<string>, prices: PriceTable)
    requires ds != [] && forall rc | rc in ds :: AllPriced(rc.cleaned, prices)
    requires |ds| == |c| && forall j | 0 <= j < |c| :: ds[j].title == c[j]
    requires Distinct(c)
    ensures forall rc | rc in ds[1..] :: AllPriced(rc.cleaned, prices)
    ensures forall j | 0 <= j < |c| - 1 :: ds[1..][j].title == c[1..][j]
    ensures Distinct(c[1..])
  {
    assert forall x | x in ds[1..] :: x in ds;
  }

  /** The build loop over rebuildable recipes appends their titles, in
      order, to the recipe keys in insertion order. */
  lemma {:induction false} BuiltRecipeOrder(t: Table, ds: seq<Recipe>, c: seq<string>, prices: PriceTable)
    requires Rebuildable(t, ds, c, prices)
    ensures var u := Built(t, ds, prices).table;
            Keep(u.order, KindTest(u, "recipe")) == Keep(t.order, KindTest(t, "recipe")) + c
    decreases |ds|
  {
    if ds == [] {
      assert c == [];
    } else {
      OrderTurn(t, ds, c, prices);
      var e := WithEdges(WithVertex(t, ds[0], prices).table, ds[0].title).table;
      BuiltRecipeOrder(e, ds[1..], c[1..], prices);
      AppendFirst(Keep(e.order, KindTest(e, "recipe")), Keep(t.order, KindTest(t, "recipe")), c);
    }
  }

  lemma AppendFirst(x: seq<string>, before: seq<string>, c: seq<string>)
    requires c != [] && x == before + [c[0]]
    ensures x + c[1..] == before + c
  {
    assert c == [c[0]] + c[1..];
  }

  /** The recipe keys of the rebuilt graph, in insertion order, are the
      chosen keys in the order they were chosen. */
  lemma RebuiltOrder(t: Table, c: seq<string>, prices: PriceTable)
    requires WellFormed(t) && Bipartite(t) && PricedRecipes(t, prices)
    requires forall k | k in c :: k in t.vertices && t.vertices[k].node.RecipeNode?
    requires Distinct(c)
    ensures Items(OfKind(Built(EmptyTable(), DetailsAt(t, c), prices).table, "recipe")) == c
  {
    var ds := DetailsAt(t, c);
    var u := Built(EmptyTable(), ds, prices).table;
    DetailsSeparate(t, c, prices);
    EmptyWellFormed();
    BuiltWellFormed(EmptyTable(), ds, prices);
    assert forall j | 0 <= j < |c| :: ds[j].title == c[j] by {
      forall j | 0 <= j < |c| ensures ds[j].title == c[j] {
        assert c[j] in c;
      }
    }
    BuiltRecipeOrder(EmptyTable(), ds, c, prices);
    OfKindItems(u, "recipe");
    assert Keep(EmptyTable().order, KindTest(EmptyTable(), "recipe")) == [];
  }

  /** Rebuilding from chosen recipe keys of a well-formed bipartite graph
      whose recipes are priced raises nothing; the new graph is well
      formed, every recipe is linked to its ingredients, its recipe vertices
      are the chosen ones, carried over unchanged, and listed in the order
      given when no key is given twice; its other vertices are exactly their
      ingredients; and it is empty exactly when no key is given. */
  lemma RebuiltShape(t: Table, c: seq<string>, prices: PriceTable)
    requires WellFormed(t) && Bipartite(t) && PricedRecipes(t, prices)
    requires forall k | k in c :: k in t.vertices && t.vertices[k].node.RecipeNode?
    ensures var u := Built(EmptyTable(), DetailsAt(t, c), prices);
            u.status == Done && WellFormed(u.table) && Complete(u.table) &&
            (u.table == EmptyTable() <==> c == []) &&
            (forall k | k in u.table.vertices :: u.table.vertices[k].node.RecipeNode? <==> k in c) &&
            (forall k | k in c :: k in u.table.vertices && u.table.vertices[k].node == t.vertices[k].node) &&
            (forall k :: k in u.table.vertices <==> k in c || exists r :: r in c && Uses(t, r, k)) &&
            (Distinct(c) ==> Items(OfKind(u.table, "recipe")) == c)
  {
    var u := Built(EmptyTable(), DetailsAt(t, c), prices);
    EmptyWellFormed();
    BuiltWellFormed(EmptyTable(), DetailsAt(t, c), prices);
    RebuiltRecipes(t, c, prices);
    RebuiltKeys(t, c, prices);
    RebuiltNodes(t, c, prices);
    if c != [] {
      assert c[0] in u.table.vertices;
    }
    if Distinct(c) {
      RebuiltOrder(t, c, prices);
    }
  }

  /** `filter_recipes` is the build loop, from an empty graph, over the
      recipes of the chosen keys, which are recipe keys of the graph; when
      nothing survives, nothing is chosen and the graph stays empty. */
  lemma RecommendedRebuilds(t: Table, limit: int, input: seq<string>, prices: PriceTable, priceLimit: Option<real>,
                            ratings: map<string, real>, reviewLimit: Option<int>)
    requires WellFormed(t)
    ensures var c := TitlesOf(Chosen(t, limit, input, priceLimit, ratings, reviewLimit));
            (forall k | k in c :: k in t.vertices && t.vertices[k].node.RecipeNode?) &&
            Recommended(t, limit, input, prices, priceLimit, ratings, reviewLimit) ==
            Built(EmptyTable(), DetailsAt(t, c), prices)
  {
    ChosenRecipeKeys(t, limit, input, priceLimit, ratings, reviewLimit);
    var c := TitlesOf(Chosen(t, limit, input, priceLimit, ratings, reviewLimit));
    if c == [] {
      assert DetailsAt(t, c) == [];
    }
  }

  /** On a well-formed bipartite graph whose recipes are priced,
      `filter_recipes` raises nothing and returns a well-formed graph with
      every recipe linked to its ingredients; it is empty exactly when no
      recipe is chosen; its recipe vertices are the chosen recipes, carried
      over unchanged, and listed in the order they were chosen; and its
      other vertices are exactly their ingredients. */
  lemma RecommendedShape(t: Table, limit: int, input: seq<string>, prices: PriceTable, priceLimit: Option<real>,
                         ratings: map<string, real>, reviewLimit: Option<int>)
    requires WellFormed(t) && Bipartite(t) && PricedRecipes(t, prices)
    ensures var c := TitlesOf(Chosen(t, limit, input, priceLimit, ratings, reviewLimit));
            var u := Recommended(t, limit, input, prices, priceLimit, ratings, reviewLimit);
            u.status == Done && WellFormed(u.table) && Complete(u.table) &&
            (u.table == EmptyTable() <==> c == []) &&
            (forall k | k in u.table.vertices :: u.table.vertices[k].node.RecipeNode? <==> k in c) &&
            (forall k | k in c :: k in t.vertices && k in u.table.vertices &&
                                  u.table.vertices[k].node == t.vertices[k].node) &&
            (forall k :: k in u.table.vertices <==> k in c || exists r :: r in c && Uses(t, r, k)) &&
            Items(OfKind(u.table, "recipe")) == c
  {
    RecommendedRebuilds(t, limit, input, prices, priceLimit, ratings, reviewLimit);
    ChosenTitlesDistinct(t, limit, input, priceLimit, ratings, reviewLimit);
    RebuiltShape(t, TitlesOf(Chosen(t, limit, input, priceLimit, ratings, reviewLimit)), prices);
  }
}

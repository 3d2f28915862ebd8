/**
  The recipe catalogue before it becomes a graph: price entries, recipes,
  the cleaning of recipe rows (canonical ingredients and total price), the
  conversion of cleaned records into recipes, and the mean rating per
  recipe title.

  Reading the CSV files is not modelled: rows, price entries and reviews
  arrive already split into fields.
*/
module Catalog {
  import opened Wrappers
  import opened Normalizer
  import opened Ranking

  // ---------------------------------------------------------------------------
  // Entities
  // ---------------------------------------------------------------------------

  /** A cell of the price file: a number, or the empty cell `''`. */
  datatype PriceEntry = Priced(amount: real) | Unpriced

  type PriceTable = map<string, PriceEntry>

  /** The exceptions the core raises. */
  datatype Failure =
    | KeyError(key: string)    // a lookup of a key the dictionary does not hold
    | NotANumber(key: string)  // `float('')` on the price of an unpriced ingredient
    | NotARecipe(key: string)  // `add_edge` on a vertex that is not a recipe
    | NotInList(key: string)   // `list.remove` of a name the list does not hold

  /** The outcome of a state-changing step: finished, or raised. */
  datatype Status = Done | Raised(failure: Failure)

  /** A recipe: its title, its ingredient phrases as written, its
      instructions, its image name, its canonical ingredients and its price. */
  datatype Recipe = Recipe(title: string, fullIngredients: seq<string>, instructions: string,
                           imageName: string, cleaned: seq<string>, price: real)

  /** Columns 1 to 5 of a row of the recipe file, the ingredient column
      already split into its phrases. */
  datatype Row = Row(title: string, phrases: seq<string>, instructions: string,
                     imageName: string, cleanedText: string)

  /** A cleaned record: the five columns of its row followed by the
      canonical ingredients (position 5) and the total price (position 6). */
  datatype Record = Record(row: Row, cleaned: seq<string>, price: real)

  /** The `Recipe` constructor reads positions 0, 1, 2, 3, 5 and 6 of a
      cleaned record; position 4 (the file's own cleaned column) is not kept. */
  function RecipeOf(c: Record): Recipe {
    Recipe(c.row.title, c.row.phrases, c.row.instructions, c.row.imageName, c.cleaned, c.price)
  }

  // ---------------------------------------------------------------------------
  // Pricing the ingredients of one row
  // ---------------------------------------------------------------------------

  predicate AllPriced(ings: seq<string>, prices: PriceTable) {
    forall i :: 0 <= i < |ings| ==> ings[i] in prices && prices[ings[i]].Priced?
  }

  /** The sum of the prices of `ings`. */
  function SumPrices(ings: seq<string>, prices: PriceTable): real
    requires AllPriced(ings, prices)
  {
    if ings == [] then 0.0
    else SumPrices(ings[..|ings| - 1], prices) + prices[ings[|ings| - 1]].amount
  }

  /** The price loop of the cleaning, ingredient by ingredient: a missing
      price-file entry raises `KeyError`, the first empty entry stops the loop
      and excludes the row, and otherwise the prices are summed. */
  function Costing(ings: seq<string>, prices: PriceTable): Result<PriceEntry, Failure>
  {
    if ings == [] then Ok(Priced(0.0))
    else
      var c := Costing(ings[..|ings| - 1], prices);
      var x := ings[|ings| - 1];
      if !(c.Ok? && c.value.Priced?) then c
      else if x !in prices then Err(KeyError(x))
      else match prices[x]
        case Unpriced => Ok(Unpriced)
        case Priced(p) => Ok(Priced(c.value.amount + p))
  }

  /** The index of the first ingredient that is not a priced entry of the
      price file, or `|ings|` when there is none. */
  function FirstGap(ings: seq<string>, prices: PriceTable): (k: nat)
    ensures k <= |ings|
    ensures AllPriced(ings[..k], prices)
    ensures k < |ings| ==> !(ings[k] in prices && prices[ings[k]].Priced?)
  {
    if ings == [] then 0
    else if ings[0] in prices && prices[ings[0]].Priced? then
      var k := 1 + FirstGap(ings[1..], prices);
      assert forall i :: 1 <= i < k ==> ings[..k][i] == ings[1..][..k - 1][i - 1];
      k
    else 0
  }

  /** Once the loop has stopped, later ingredients change nothing. */
  lemma {:induction false} CostingSticky(ings: seq<string>, n: nat, prices: PriceTable)
    requires n <= |ings|
    requires !(Costing(ings[..n], prices).Ok? && Costing(ings[..n], prices).value.Priced?)
    ensures Costing(ings, prices) == Costing(ings[..n], prices)
    decreases |ings| - n
  {
    if n < |ings| {
      assert ings[..n + 1][..n] == ings[..n];
      CostingSticky(ings, n + 1, prices);
    } else {
      assert ings[..n] == ings;
    }
  }

  lemma {:induction false} CostingOfPriced(ings: seq<string>, prices: PriceTable)
    requires AllPriced(ings, prices)
    ensures Costing(ings, prices) == Ok(Priced(SumPrices(ings, prices)))
  {
    if ings != [] {
      var p := ings[..|ings| - 1];
      assert AllPriced(p, prices) by {
        forall i | 0 <= i < |p| ensures p[i] in prices && prices[p[i]].Priced? {
          assert p[i] == ings[i];
        }
      }
      CostingOfPriced(p, prices);
    }
  }

  /** The outcome of the price loop is decided by the first ingredient
      without a price: none gives the sum, an empty entry excludes the row,
      and a missing entry raises `KeyError` for that ingredient. */
  lemma CostingByFirstGap(ings: seq<string>, prices: PriceTable)
    ensures var k := FirstGap(ings, prices);
            Costing(ings, prices) ==
              if k == |ings| then Ok(Priced(SumPrices(ings, prices)))
              else if ings[k] in prices then Ok(Unpriced)
              else Err(KeyError(ings[k]))
  {
    var k := FirstGap(ings, prices);
    if k == |ings| {
      assert ings[..k] == ings;
      CostingOfPriced(ings, prices);
    } else {
      CostingOfPriced(ings[..k], prices);
      assert ings[..k + 1][..k] == ings[..k];
      CostingSticky(ings, k + 1, prices);
    }
  }

  /** The included rows are exactly those whose ingredients are all priced. */
  lemma CostingIncludesIff(ings: seq<string>, prices: PriceTable)
    ensures Costing(ings, prices).Ok? && Costing(ings, prices).value.Priced? <==> AllPriced(ings, prices)
    ensures AllPriced(ings, prices) ==> Costing(ings, prices).value.amount == SumPrices(ings, prices)
  {
    CostingByFirstGap(ings, prices);
    var k := FirstGap(ings, prices);
    if k < |ings| {
      assert !AllPriced(ings, prices) by {
        assert !(ings[k] in prices && prices[ings[k]].Priced?);
      }
    }
  }

  /** The price loop of `cleancsv` for one row. */
  method PriceIngredients(ings: seq<string>, prices: PriceTable) returns (r: Result<PriceEntry, Failure>)
    ensures r == Costing(ings, prices)
  {
    var total := 0.0;
    var included := true;
    for i := 0 to |ings|
      invariant included
      invariant Costing(ings[..i], prices) == Ok(Priced(total))
    {
      assert ings[..i + 1][..i] == ings[..i];
      var item := ings[i];
      if item !in prices {
        CostingSticky(ings, i + 1, prices);
        return Err(KeyError(item));
      }
      if prices[item].Unpriced? {
        CostingSticky(ings, i + 1, prices);
        included := false;
        break;
      }
      total := total + prices[item].amount;
    }
    if included {
      assert ings[..|ings|] == ings;
      r := Ok(Priced(total));
    } else {
      r := Ok(Unpriced);
    }
  }

  // ---------------------------------------------------------------------------
  // cleancsv
  // ---------------------------------------------------------------------------

  /** The cleaned records of `rows`, row after row, when `ingredientsOf`
      gives the canonical ingredients of a row: each row's ingredients are
      priced; a row with an unpriced ingredient is dropped and a `KeyError`
      stops the cleaning. */
  function CleanedBy(rows: seq<Row>, ingredientsOf: Row -> seq<string>, prices: PriceTable): Result<seq<Record>, Failure>
  {
    if rows == [] then Ok([])
    else
      var acc := CleanedBy(rows[..|rows| - 1], ingredientsOf, prices);
      var row := rows[|rows| - 1];
      var ings := ingredientsOf(row);
      if acc.Err? then acc
      else match Costing(ings, prices)
        case Err(e) => Err(e)
        case Ok(Unpriced) => acc
        case Ok(Priced(total)) => Ok(acc.value + [Record(row, ings, total)])
  }

  /** What `cleancsv` returns for `rows`, the vocabulary `foods` and the
      price table: the ingredients of a row are `get_ingredients` of its
      phrases. */
  function Cleaned(rows: seq<Row>, foods: seq<string>, prices: PriceTable): Result<seq<Record>, Failure>
  {
    CleanedBy(rows, (row: Row) => Canonical(foods, row.phrases), prices)
  }

  lemma {:induction false} CleanedSticky(rows: seq<Row>, n: nat, f: Row -> seq<string>, prices: PriceTable)
    requires n <= |rows|
    requires CleanedBy(rows[..n], f, prices).Err?
    ensures CleanedBy(rows, f, prices) == CleanedBy(rows[..n], f, prices)
    decreases |rows| - n
  {
    if n < |rows| {
      assert rows[..n + 1][..n] == rows[..n];
      CleanedSticky(rows, n + 1, f, prices);
    } else {
      assert rows[..n] == rows;
    }
  }

  lemma {:induction false} CleanedByOkIff(rows: seq<Row>, f: Row -> seq<string>, prices: PriceTable)
    ensures CleanedBy(rows, f, prices).Ok? <==> forall i :: 0 <= i < |rows| ==> Costing(f(rows[i]), prices).Ok?
  {
    if rows != [] {
      var p := rows[..|rows| - 1];
      CleanedByOkIff(p, f, prices);
      assert forall i :: 0 <= i < |p| ==> p[i] == rows[i];
    }
  }

  /** The cleaning succeeds exactly when no row's price loop raises. */
  lemma CleanedOkIff(rows: seq<Row>, foods: seq<string>, prices: PriceTable)
    ensures Cleaned(rows, foods, prices).Ok? <==>
            forall i :: 0 <= i < |rows| ==> Costing(Canonical(foods, rows[i].phrases), prices).Ok?
  {
    CleanedByOkIff(rows, (row: Row) => Canonical(foods, row.phrases), prices);
  }

  lemma {:induction false} CleanedByRecords(rows: seq<Row>, f: Row -> seq<string>, prices: PriceTable)
    requires CleanedBy(rows, f, prices).Ok?
    ensures var cs := CleanedBy(rows, f, prices).value;
            |cs| <= |rows| &&
            forall c :: c in cs ==>
              c.row in rows && c.cleaned == f(c.row) &&
              AllPriced(c.cleaned, prices) && c.price == SumPrices(c.cleaned, prices)
  {
    if rows != [] {
      var p := rows[..|rows| - 1];
      var row := rows[|rows| - 1];
      CleanedByRecords(p, f, prices);
      assert forall r :: r in p ==> r in rows;
      CostingIncludesIff(f(row), prices);
    }
  }

  /** Every cleaned record comes from one of the rows, holds the row's
      canonical ingredients, all of them priced, and their summed price. */
  lemma CleanedRecords(rows: seq<Row>, foods: seq<string>, prices: PriceTable)
    requires Cleaned(rows, foods, prices).Ok?
    ensures var cs := Cleaned(rows, foods, prices).value;
            |cs| <= |rows| &&
            forall c :: c in cs ==>
              c.row in rows && c.cleaned == Canonical(foods, c.row.phrases) &&
              AllPriced(c.cleaned, prices) && c.price == SumPrices(c.cleaned, prices)
  {
    CleanedByRecords(rows, (row: Row) => Canonical(foods, row.phrases), prices);
  }

  lemma {:induction false} CleanedByComplete(rows: seq<Row>, f: Row -> seq<string>, prices: PriceTable)
    requires CleanedBy(rows, f, prices).Ok?
    ensures forall i :: 0 <= i < |rows| && AllPriced(f(rows[i]), prices) ==>
              Record(rows[i], f(rows[i]), SumPrices(f(rows[i]), prices)) in CleanedBy(rows, f, prices).value
  {
    if rows != [] {
      var p := rows[..|rows| - 1];
      var row := rows[|rows| - 1];
      CleanedByComplete(p, f, prices);
      assert forall i :: 0 <= i < |p| ==> p[i] == rows[i];
      CostingIncludesIff(f(row), prices);
    }
  }

  /** Every row whose canonical ingredients are all priced yields a record. */
  lemma CleanedComplete(rows: seq<Row>, foods: seq<string>, prices: PriceTable)
    requires Cleaned(rows, foods, prices).Ok?
    ensures forall i :: 0 <= i < |rows| && AllPriced(Canonical(foods, rows[i].phrases), prices) ==>
              Record(rows[i], Canonical(foods, rows[i].phrases),
                     SumPrices(Canonical(foods, rows[i].phrases), prices)) in Cleaned(rows, foods, prices).value
  {
    CleanedByComplete(rows, (row: Row) => Canonical(foods, row.phrases), prices);
  }

  /** The record of a row whose canonical ingredients are all priced. */
  function RecordOf(row: Row, f: Row -> seq<string>, prices: PriceTable): Record
    requires AllPriced(f(row), prices)
  {
    Record(row, f(row), SumPrices(f(row), prices))
  }

  /** A row whose canonical ingredients are all priced. */
  function PricedRow(f: Row -> seq<string>, prices: PriceTable): Row -> bool {
    row => AllPriced(f(row), prices)
  }

  /** The records of the fully priced rows, in row order, one per row. */
  function IncludedRecords(rows: seq<Row>, f: Row -> seq<string>, prices: PriceTable): (r: seq<Record>)
    ensures |r| == |Keep(rows, PricedRow(f, prices))|
  {
    var kept := Keep(rows, PricedRow(f, prices));
    KeepMembers(rows, PricedRow(f, prices));
    assert forall i | 0 <= i < |kept| :: kept[i] in kept;
    seq(|kept|, i requires 0 <= i < |kept| => RecordOf(kept[i], f, prices))
  }

  lemma {:induction false} CleanedByIncluded(rows: seq<Row>, f: Row -> seq<string>, prices: PriceTable)
    requires CleanedBy(rows, f, prices).Ok?
    ensures CleanedBy(rows, f, prices).value == IncludedRecords(rows, f, prices)
  {
    if rows != [] {
      var p := rows[..|rows| - 1];
      var row := rows[|rows| - 1];
      CleanedByIncluded(p, f, prices);
      CostingIncludesIff(f(row), prices);
      var a := IncludedRecords(p, f, prices);
      var b := IncludedRecords(rows, f, prices);
      if AllPriced(f(row), prices) {
        assert b == a + [RecordOf(row, f, prices)];
      } else {
        assert b == a;
      }
    }
  }

  /** The cleaned records are exactly the records of the rows whose
      canonical ingredients are all priced, in row order, one per row. */
  lemma CleanedInOrder(rows: seq<Row>, foods: seq<string>, prices: PriceTable)
    requires Cleaned(rows, foods, prices).Ok?
    ensures Cleaned(rows, foods, prices).value ==
            IncludedRecords(rows, (row: Row) => Canonical(foods, row.phrases), prices)
  {
    CleanedByIncluded(rows, (row: Row) => Canonical(foods, row.phrases), prices);
  }

  /** The row loop of `cleancsv`: the canonical ingredients of each row,
      priced; included rows are appended with their price. */
  method CleanCsv(rows: seq<Row>, foods: seq<string>, prices: PriceTable) returns (r: Result<seq<Record>, Failure>)
    ensures r == Cleaned(rows, foods, prices)
  {
    var cleanedCsv: seq<Record> := [];
    ghost var f := (row: Row) => Canonical(foods, row.phrases);
    for i := 0 to |rows|
      invariant CleanedBy(rows[..i], f, prices) == Ok(cleanedCsv)
    {
      assert rows[..i + 1][..i] == rows[..i];
      var row := rows[i];
      var ingredients := GetIngredients(foods, row.phrases);
      var price := PriceIngredients(ingredients, prices);
      match price {
        case Err(e) =>
          CleanedSticky(rows, i + 1, f, prices);
          return Err(e);
        case Ok(Unpriced) =>
        case Ok(Priced(total)) =>
          cleanedCsv := cleanedCsv + [Record(row, ingredients, total)];
      }
    }
    assert rows[..|rows|] == rows;
    r := Ok(cleanedCsv);
  }

  // ---------------------------------------------------------------------------
  // to_recipe_class
  // ---------------------------------------------------------------------------

  /** The records from position 1 on, as recipes: the loop starts at index 1,
      so the first cleaned record never becomes a recipe. */
  method ToRecipes(cleanedCsv: seq<Record>) returns (recipes: seq<Recipe>)
    ensures |recipes| == if cleanedCsv == [] then 0 else |cleanedCsv| - 1
    ensures forall k :: 0 <= k < |recipes| ==> recipes[k] == RecipeOf(cleanedCsv[k + 1])
  {
    recipes := [];
    var i := 1;
    while i < |cleanedCsv|
      invariant 1 <= i <= if cleanedCsv == [] then 1 else |cleanedCsv|
      invariant |recipes| == i - 1
      invariant forall k :: 0 <= k < |recipes| ==> recipes[k] == RecipeOf(cleanedCsv[k + 1])
    {
      recipes := recipes + [RecipeOf(cleanedCsv[i])];
      i := i + 1;
    }
  }

  // ---------------------------------------------------------------------------
  // reviews_to_dict
  // ---------------------------------------------------------------------------

  /** A row of the reviews file: a recipe title and a rating. */
  datatype Review = Review(title: string, rating: real)

  function Titles(reviews: seq<Review>): set<string> {
    set k | 0 <= k < |reviews| :: reviews[k].title
  }

  /** The sum and the number of the ratings given to `t`. */
  function RatingSum(reviews: seq<Review>, t: string): real {
    if reviews == [] then 0.0
    else
      var last := reviews[|reviews| - 1];
      RatingSum(reviews[..|reviews| - 1], t) + (if last.title == t then last.rating else 0.0)
  }

  function RatingCount(reviews: seq<Review>, t: string): nat {
    if reviews == [] then 0
    else
      var last := reviews[|reviews| - 1];
      RatingCount(reviews[..|reviews| - 1], t) + (if last.title == t then 1 else 0)
  }

  /** A title has ratings exactly when some review names it. */
  lemma {:induction false} RatingCountPositive(reviews: seq<Review>, t: string)
    ensures RatingCount(reviews, t) > 0 <==> t in Titles(reviews)
    ensures t !in Titles(reviews) ==> RatingSum(reviews, t) == 0.0
  {
    if reviews != [] {
      var p := reviews[..|reviews| - 1];
      RatingCountPositive(p, t);
      assert forall k :: 0 <= k < |p| ==> p[k] == reviews[k];
      assert Titles(reviews) == Titles(p) + {reviews[|reviews| - 1].title};
    }
  }

  /** One more review adds its rating to its own title only. */
  lemma RatingStep(reviews: seq<Review>, i: nat, t: string)
    requires i < |reviews|
    ensures RatingSum(reviews[..i + 1], t) ==
            RatingSum(reviews[..i], t) + (if reviews[i].title == t then reviews[i].rating else 0.0)
    ensures RatingCount(reviews[..i + 1], t) ==
            RatingCount(reviews[..i], t) + (if reviews[i].title == t then 1 else 0)
  {
    assert reviews[..i + 1][..i] == reviews[..i];
  }

  lemma {:induction false} RatingSumBetween(reviews: seq<Review>, t: string, lo: real, hi: real)
    requires forall k :: 0 <= k < |reviews| && reviews[k].title == t ==> lo <= reviews[k].rating <= hi
    ensures lo * (RatingCount(reviews, t) as real) <= RatingSum(reviews, t) <= hi * (RatingCount(reviews, t) as real)
  {
    if reviews != [] {
      var n := |reviews| - 1;
      var p := reviews[..n];
      assert forall k :: 0 <= k < |p| ==> p[k] == reviews[k];
      RatingSumBetween(p, t, lo, hi);
      RatingStep(reviews, n, t);
      assert reviews[..n + 1] == reviews;
      var c := RatingCount(p, t) as real;
      if reviews[n].title == t {
        assert lo * (c + 1.0) == lo * c + lo;
        assert hi * (c + 1.0) == hi * c + hi;
      }
    }
  }

  /** A mean rating lies between the lowest and the highest rating given to
      that title. */
  lemma MeanBetween(reviews: seq<Review>, t: string, lo: real, hi: real)
    requires t in Titles(reviews)
    requires forall k :: 0 <= k < |reviews| && reviews[k].title == t ==> lo <= reviews[k].rating <= hi
    ensures RatingCount(reviews, t) > 0
    ensures lo <= RatingSum(reviews, t) / (RatingCount(reviews, t) as real) <= hi
  {
    RatingCountPositive(reviews, t);
    MeanOfCountBetween(reviews, t, lo, hi);
  }

  lemma MeanOfCountBetween(reviews: seq<Review>, t: string, lo: real, hi: real)
    requires RatingCount(reviews, t) > 0
    requires forall k :: 0 <= k < |reviews| && reviews[k].title == t ==> lo <= reviews[k].rating <= hi
    ensures lo <= RatingSum(reviews, t) / (RatingCount(reviews, t) as real) <= hi
  {
    RatingSumBetween(reviews, t, lo, hi);
    DivideBetween(RatingSum(reviews, t), RatingCount(reviews, t) as real, lo, hi);
  }

  lemma DivideBetween(s: real, n: real, lo: real, hi: real)
    requires n > 0.0 && lo * n <= s <= hi * n
    ensures lo <= s / n <= hi
  {
    assert s / n * n == s;
  }

  /** `reviews_to_dict` after reading the file: per title, the running sum
      and count of its ratings, then the mean of each. */
  method ReviewMeans(reviews: seq<Review>) returns (means: map<string, real>)
    ensures means.Keys == Titles(reviews)
    ensures forall t :: t in means ==>
              RatingCount(reviews, t) > 0 &&
              means[t] == RatingSum(reviews, t) / (RatingCount(reviews, t) as real)
  {
    var long: map<string, (real, nat)> := map[];
    for i := 0 to |reviews|
      invariant long.Keys == Titles(reviews[..i])
      invariant forall t :: t in long ==>
                  long[t] == (RatingSum(reviews[..i], t), RatingCount(reviews[..i], t)) && long[t].1 > 0
    {
      var p := reviews[..i + 1];
      assert Titles(p) == Titles(reviews[..i]) + {reviews[i].title} by {
        assert forall k :: 0 <= k < i ==> p[k] == reviews[..i][k];
        assert p[i] == reviews[i];
      }
      forall t {
        RatingStep(reviews, i, t);
      }
      var row := reviews[i];
      if row.title !in long {
        RatingCountPositive(reviews[..i], row.title);
        long := long[row.title := (row.rating, 1)];
      } else {
        long := long[row.title := (long[row.title].0 + row.rating, long[row.title].1 + 1)];
      }
    }
    assert reviews[..|reviews|] == reviews;
    means := map t | t in long :: long[t].0 / (long[t].1 as real);
  }
}

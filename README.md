# Recipe and food suggestor: the recipe–ingredient graph in Dafny

This project models the core of a recipe recommender written in Python
(`proj2functions.py`) and proves properties of the model.

The recommender keeps a bipartite graph in memory. Recipe vertices are
joined to the ingredient vertices they use. On top of the graph it:

- normalises free-text ingredient phrases to canonical names;
- cleans and prices the catalogue rows;
- ranks ingredients by how many recipes use them and by Jaccard similarity;
- picks the recipes that best match the ingredients a user has, under an
  optional price ceiling and rating floor, and returns them as a new graph.

Modules, leaf first:

| file | module | what it models |
|---|---|---|
| `wrappers.dfy` | `Wrappers` | `None` and values-or-exceptions |
| `normalizer.dfy` | `Normalizer` | `singularize` and `get_ingredients` |
| `catalog.dfy` | `Catalog` | the `Recipe` record, the price loop of `cleancsv`, `to_recipe_class`, `reviews_to_dict` |
| `ranking.dfy` | `Ranking` | Python's string order, the stable reverse sort, `s[:k]`, order-keeping filters |
| `vertices.dfy` | `Vertices` | `_Vertex`: `depth`, `shared_neighbours`, `similarity` |
| `tables.dfy` | `Tables` | the `_vertices` dictionary as a value; `add_vertex`, `add_edge` and the `load_graph` loop as functions; the graph invariant |
| `queries.dfy` | `Queries` | `filter_kind`, `get_most_connected_ingredients` and `get_similar` as functions |
| `recommend.dfy` | `Recommend` | `filter_recipes` as a function, and what it selects |
| `graph.dfy` | `Graphs` | the class `Graph`, whose methods update its fields in place, and `load_graph` |

The class `Graph` holds the dictionary in two fields. `vertices` maps each
key to its vertex. `order` lists the keys in insertion order, which a Python
`dict` keeps. Every method is proved to change or read that state exactly as
a function of `Tables`, `Queries` or `Recommend` says. The properties are
proved about those functions. Neighbours are held as a set of keys. Keys are
unique within a graph, so the set of neighbour keys stands for the set of
neighbour objects.

Raised exceptions are values of `Catalog.Failure`:

- `KeyError`: a dictionary lookup of a missing key.
- `NotANumber`: `float('')` on the price of an unpriced ingredient.
- `NotARecipe`: the `ValueError` raised by `add_edge`.
- `NotInList`: the `ValueError` raised by `list.remove`.

A state-changing step returns a `Status`, either `Done` or `Raised(failure)`.

The model follows the code as written, including these behaviours:

- A missing key given to `add_edge` raises `KeyError` at line 367, before
  the membership test on line 368. Only a key that names an ingredient
  reaches the `ValueError` on line 374.
- The "es" rule of `singularize` always drops two characters, so "potatoes"
  becomes "potato" and "tomatoes" becomes "tomato".
- `to_recipe_class` starts at index 1. The first cleaned record never
  becomes a recipe, although `cleancsv` has already skipped the header row.
  `Catalog.ToRecipes` models this as written.

## Model

| member | source | states |
|---|---|---|
| `Normalizer.Singularize` | proj2functions.py:139-158 | the singular form is never longer than the word |
| `Normalizer.SingularizeFixedIff` | proj2functions.py:150-158 | a word is returned unchanged exactly when it does not end in "s" or ends in "ss", "us" or "is"; every other word gets strictly shorter |
| `Normalizer.SingularizeLetters` | proj2functions.py:150-158 | a word of letters singularises to a word of letters |
| `Normalizer.SingularizeBerries` | proj2functions.py:141-142 | "berries" becomes "berry" |
| `Normalizer.SingularizeLeaves` | proj2functions.py:143-144 | "leaves" becomes "leaf" |
| `Normalizer.SingularizeDishes` | proj2functions.py:145-146 | "dishes" becomes "dish" |
| `Normalizer.SingularizeCars` | proj2functions.py:147-148 | "cars" becomes "car" |
| `Normalizer.Letters` | proj2functions.py:130 | keeping the letters of a word gives letters only and is never longer |
| `Normalizer.LettersOfLetters` | proj2functions.py:130 | a word of letters is kept whole |
| `Normalizer.LettersOfChar` | proj2functions.py:130 | one character is kept exactly when it is a letter |
| `Normalizer.LettersAppend` | proj2functions.py:130 | keeping the letters of a concatenation keeps the letters of each part, in order; with `LettersOfChar` this fixes the result character by character |
| `Normalizer.WordsOfJoin` | proj2functions.py:128 | splitting at white space recovers non-empty words that were joined with single spaces |
| `Normalizer.WordsSplitAtSpace` | proj2functions.py:128 | a white-space character splits the word list in two |
| `Normalizer.Words` | proj2functions.py:128 | `split()`: the maximal runs of non-white-space characters, in order; its properties are `WordsOfJoin` and `WordsSplitAtSpace` |
| `Normalizer.WordKeys` | proj2functions.py:129-132 | each word's letters, skipped when empty and otherwise singularised, in the order of the words |
| `Normalizer.PhraseKeys` | proj2functions.py:127-132 | the word keys of each phrase, phrase after phrase |
| `Normalizer.KeepNew` | proj2functions.py:133-134 | each key that is in the vocabulary and not yet kept is appended; its properties are the three `KeepNew` lemmas below |
| `Normalizer.Canonical` | proj2functions.py:115-136 | `get_ingredients` as a value: `KeepNew` over the phrases' keys; `GetIngredients` is proved to return it |
| `Normalizer.GetIngredients` | proj2functions.py:115-136 | the nested loops return exactly the vocabulary words among the phrases' singularised letter words, each once |
| `Normalizer.KeepNewMembers` | proj2functions.py:133-134 | a name is returned exactly when it is in the vocabulary and among the candidate words |
| `Normalizer.KeepNewDistinct` | proj2functions.py:133 | no name is returned twice |
| `Normalizer.KeepNewFirstOccurrenceOrder` | proj2functions.py:127-134 | returned names are in the order of their first occurrence among the phrases' words |
| `Catalog.PriceIngredients` | proj2functions.py:93-97 | the price loop of one row returns the sum, the exclusion, or the `KeyError` that the recursive definition gives |
| `Catalog.Costing` | proj2functions.py:93-97 | the price loop of one row as a value: the sum, the exclusion at an empty entry, or `KeyError` at a missing one, whichever comes first; its properties are `CostingByFirstGap` and `CostingIncludesIff` |
| `Catalog.CostingByFirstGap` | proj2functions.py:93-97 | the first ingredient without a usable price decides the outcome: no such ingredient gives the sum, an empty entry excludes the row, a missing entry raises `KeyError` for that ingredient |
| `Catalog.CostingIncludesIff` | proj2functions.py:93-102 | a row is included exactly when all its ingredients are priced, and then its price is their sum |
| `Catalog.CleanCsv` | proj2functions.py:76-103 | the row loop returns the cleaned records of the rows, or the first `KeyError` raised |
| `Catalog.CleanedOkIff` | proj2functions.py:93-97 | the cleaning succeeds exactly when no row's price loop raises |
| `Catalog.CleanedRecords` | proj2functions.py:91-102 | each record comes from a row, holds that row's canonical ingredients, all of them priced, and their summed price; there are at most as many records as rows |
| `Catalog.CleanedComplete` | proj2functions.py:99-102 | every row whose canonical ingredients are all priced yields its record |
| `Catalog.CleanedBy` | proj2functions.py:78-102 | the row loop as a value for a given way of reading a row's ingredients: each included row's record is appended, and the first `KeyError` ends the loop |
| `Catalog.Cleaned` | proj2functions.py:76-103 | `cleancsv` as a value: `CleanedBy` with `get_ingredients` reading each row |
| `Catalog.IncludedRecords` | proj2functions.py:91-102 | one record for each row whose ingredients are all priced, in row order |
| `Catalog.CleanedByIncluded` | proj2functions.py:78-102 | when no row raises, the row loop returns exactly the records of the included rows, in row order |
| `Catalog.CleanedInOrder` | proj2functions.py:76-103 | when no row raises, `cleancsv` returns exactly the records of the rows whose canonical ingredients are all priced, in row order |
| `Catalog.ToRecipes` | proj2functions.py:106-112 | the recipes are the cleaned records from position 1 on, in order; the first record is dropped |
| `Catalog.RatingCountPositive` | proj2functions.py:189-194 | a title has a rating count above zero exactly when some review names it |
| `Catalog.MeanBetween` | proj2functions.py:196 | a mean rating lies between the lowest and the highest rating given to that title |
| `Catalog.ReviewMeans` | proj2functions.py:181-197 | the keys are exactly the reviewed titles, and each maps to the sum of its ratings over their count |
| `Vertices.SharedNeighbours` | proj2functions.py:299-316 | the shared-neighbour count is at most the size of either exclusive neighbourhood |
| `Vertices.Depth` | proj2functions.py:255-263 | the depth is the number of neighbours; `DepthExample` checks the documented case |
| `Vertices.Similarity` | proj2functions.py:267-297 | the similarity lies in [0, 1] |
| `Vertices.SimilaritySymmetric` | proj2functions.py:286-297 | similarity and shared-neighbour count do not depend on argument order |
| `Vertices.SimilarityRatio` | proj2functions.py:289-297 | when the union is not empty, the similarity times the union's size is the shared-neighbour count |
| `Vertices.SimilarityZeroIff` | proj2functions.py:292-295 | the similarity is 0 exactly when no neighbour is shared, including when both neighbourhoods are empty |
| `Vertices.SimilarityOneIff` | proj2functions.py:286-297 | the similarity is 1 exactly when both exclusive neighbourhoods are equal and not empty |
| `Vertices.SharedBelowDepth` | proj2functions.py:299-316 | the shared-neighbour count is at most the depth of either vertex |
| `Vertices.DepthExample` | proj2functions.py:259-263 | the documented example has depth 1 |
| `Vertices.SimilarityExample` | proj2functions.py:274-284 | the documented example has similarity 0.5 and one shared neighbour |
| `Tables.PriceOf` | proj2functions.py:349 | `float(prices[i])` succeeds exactly on a priced entry; otherwise it raises `KeyError` for a missing key, or the conversion error for an empty entry |
| `Tables.Put` | proj2functions.py:350-357 | `self._vertices[k] = v`: the map is updated at the key, and a new key goes to the end of the insertion order |
| `Tables.PutIngredient` | proj2functions.py:350-352 | an ingredient vertex is inserted unless its key is already there |
| `Tables.PutIngredients` | proj2functions.py:348-352 | existing vertices are kept; each new key is a priced ingredient of the recipe with a fresh, unlinked vertex; the loop finishes exactly when all the ingredients are priced, and then they are all keys; otherwise the failure belongs to the first unpriced ingredient |
| `Tables.PutIngredientsPrefix` | proj2functions.py:348-352 | every ingredient before the first unreadable price is a key afterwards, also when the loop raises at that price |
| `Tables.PutIngredientsExtends` | proj2functions.py:348-352 | the ingredient loop only appends to the insertion order |
| `Tables.WithVertex` | proj2functions.py:336-357 | existing vertices are kept; new vertices are unlinked ingredients of the recipe or the recipe itself; the call finishes exactly when all ingredients are priced, and then the title and every ingredient are keys |
| `Tables.WithVertexWellFormed` | proj2functions.py:336-357 | `add_vertex` keeps the graph invariant and leaves at most the new recipe unlinked |
| `Tables.WithVertexTwice` | proj2functions.py:336-357 | calling `add_vertex` twice with the same recipe is the same as calling it once |
| `Tables.WithVertexExtends` | proj2functions.py:336-357 | `add_vertex` only appends to the insertion order |
| `Tables.PutIngredientsSettled` | proj2functions.py:348-352 | repeating the ingredient loop changes nothing |
| `Tables.Link` | proj2functions.py:370-372 | one edge adds no key, keeps the order, and changes each vertex only by adding neighbours |
| `Tables.LinkAll` | proj2functions.py:369-372 | the edge loop only adds neighbours; it finishes exactly when every ingredient is a key |
| `Tables.WithEdges` | proj2functions.py:359-374 | `add_edge` only adds neighbours; an absent key raises `KeyError`; a non-recipe key raises `NotARecipe`; on either error the table is unchanged |
| `Tables.WithEdgesOutcome` | proj2functions.py:366-374 | on a well-formed graph, `add_edge` finishes exactly when the key is a recipe, and then it links the recipe to all its ingredients |
| `Tables.WithEdgesLinks` | proj2functions.py:367-372 | the recipe gains all its ingredients, each ingredient gains the recipe, and every other vertex is unchanged |
| `Tables.WithEdgesTwice` | proj2functions.py:359-374 | calling `add_edge` twice on a key is the same as calling it once |
| `Tables.WithEdgesWellFormed` | proj2functions.py:359-374 | `add_edge` keeps the invariant, links the one unlinked recipe, and changes nothing when it raises |
| `Tables.NoSelfLoops` | proj2functions.py:222-224 | in a well-formed graph no vertex is its own neighbour |
| `Tables.EdgesAreUses` | proj2functions.py:222-224 | in a complete well-formed graph, two vertices are neighbours exactly when one is a recipe using the other |
| `Tables.Built` | proj2functions.py:553-555 | the build loop keeps every existing vertex with its kind and price and only adds neighbours; it keeps insertion order consistent |
| `Tables.BuiltWellFormed` | proj2functions.py:553-555 | the build loop keeps the invariant and leaves every recipe linked to its ingredients, even if it raises |
| `Tables.BuiltKeys` | proj2functions.py:553-555 | when the loop finishes, the keys are the old keys plus the recipe titles plus their ingredients |
| `Tables.BuiltTitles` | proj2functions.py:553-555 | when the loop finishes, every title is a recipe vertex |
| `Tables.BuiltNodes` | proj2functions.py:553-555 | every recipe vertex the loop adds carries one of the given recipes |
| `Tables.BuiltSucceeds` | proj2functions.py:553-555 | priced recipes whose titles clash with no ingredient are built without an exception; the recipe vertices are the old ones plus the titles |
| `Queries.KindKeys` | proj2functions.py:404-406 | the kept keys are keys of the graph whose vertex has the requested kind |
| `Queries.OfKind` | proj2functions.py:393-407 | `filter_kind` as a value: the vertices at the keys of the requested kind, in insertion order; its properties are the three `OfKind` lemmas below |
| `Queries.OfKindMembers` | proj2functions.py:393-407 | `filter_kind` lists exactly the vertices of the requested kind (every vertex for `''`) |
| `Queries.OfKindOrder` | proj2functions.py:393-407 | `filter_kind` lists each vertex once, in insertion order |
| `Queries.OfKindAll` | proj2functions.py:400-403 | `filter_kind('')` lists every key in insertion order |
| `Queries.MostConnectedSpec` | proj2functions.py:445-456 | exactly ten triples, or one per ingredient vertex when there are fewer; each for an ingredient vertex with its true depth and price; sorted non-increasing by `(depth, key, price)`; no ingredient left out ranks above one listed |
| `Queries.DepthScores` | proj2functions.py:448-452 | the triple `(depth, key, price)` of each ingredient key, in the order of the keys |
| `Queries.DepthScoresCount` | proj2functions.py:448-452 | there is one triple per ingredient key |
| `Queries.MostConnected` | proj2functions.py:445-456 | the triples sorted in reverse, cut at ten; its properties are `MostConnectedSpec` |
| `Queries.DepthScoresComplete` | proj2functions.py:448-452 | every ingredient vertex has its triple among the scores before truncation |
| `Queries.RemoveFirst` | proj2functions.py:528 | `list.remove` raises `ValueError` exactly when the name is absent |
| `Queries.RemoveFirstDistinct` | proj2functions.py:528 | removing a name from a list of distinct names leaves exactly the other names |
| `Queries.IngredientKeysSpec` | proj2functions.py:527 | the listed ingredient names are exactly the ingredient keys, each once |
| `Queries.SimilarSpec` | proj2functions.py:521-536 | `get_similar` raises exactly when the key is not an ingredient; otherwise it returns exactly five pairs, or one per other ingredient when there are fewer; each pair is another ingredient with its true similarity; the pairs are sorted non-increasing by `(score, key)`; no ingredient left out ranks above one listed |
| `Queries.SimilarityScores` | proj2functions.py:530-532 | one pair per other ingredient |
| `Queries.Similar` | proj2functions.py:521-536 | `get_similar` as a value: the removal's `ValueError`, or the pairs sorted in reverse and cut at five; its properties are `SimilarSpec` |
| `Ranking.StrLessOrder` | proj2functions.py:454 | Python's `<` on strings is irreflexive, total, asymmetric and transitive |
| `Ranking.SortDesc` | proj2functions.py:454 | `sort(reverse=True)` as a stable insertion sort that keeps the length; its properties are the `SortDesc` lemmas below |
| `Ranking.SortDescPermutation` | proj2functions.py:454 | the reverse sort is a permutation of its input |
| `Ranking.SortDescSorted` | proj2functions.py:454 | the reverse sort is non-increasing |
| `Ranking.SortDescStable` | proj2functions.py:493 | elements that rank level keep their original order |
| `Ranking.TopOfSorted` | proj2functions.py:534-536 | the first k of the reverse sort are sorted, come from the input, and rank at least as high as everything left out |
| `Ranking.Take` | proj2functions.py:455 | `s[:k]` is a prefix of length `min(k, len(s))` |
| `Ranking.KeepSorted` | proj2functions.py:496-506 | filtering a sorted list keeps it sorted |
| `Ranking.TierKeep` | proj2functions.py:496-506 | filtering and selecting the elements of one rank commute |
| `Recommend.HitsPositive` | proj2functions.py:483-484 | a recipe scores exactly when one of the user's ingredients is among its neighbours |
| `Recommend.Hits` | proj2functions.py:483-488 | the number of positions of the user's list that hold a neighbour, at most the list's length |
| `Recommend.ScoreOf` | proj2functions.py:481-491 | a recipe's score: its hits, or 1 when the user gives no ingredient |
| `Recommend.Scored` | proj2functions.py:481-491 | the recipes with a positive score, each with its score, in the order given |
| `Recommend.Candidates` | proj2functions.py:477-491 | `poss_recipes`: the scored recipe vertices in insertion order |
| `Recommend.PriceTest` | proj2functions.py:495-503 | a positive score and, when a ceiling is given, a price at most the ceiling |
| `Recommend.RatingTest` | proj2functions.py:505-506 | when a floor is given, a rating that is present and at least the floor |
| `Recommend.Survivors` | proj2functions.py:493-506 | `final_recipes`: the candidates sorted by score, then kept by the price test, then by the rating test |
| `Recommend.Chosen` | proj2functions.py:508-516 | the first `limit` survivors |
| `Recommend.Recommended` | proj2functions.py:508-519 | `filter_recipes` as a value: an empty graph when nothing survives, otherwise the build loop over the chosen recipes |
| `Recommend.ScoredMembers` | proj2functions.py:481-491 | the scored entries are the vertices with a positive score, each with that score |
| `Recommend.ScoredDistinct` | proj2functions.py:479-491 | over distinct keys, no recipe is scored twice |
| `Recommend.CandidatesMembers` | proj2functions.py:477-491 | the candidates are exactly the recipe vertices with a positive score, each with its score |
| `Recommend.SurvivorsMembers` | proj2functions.py:493-506 | a survivor is exactly a candidate that passes the price and the rating filters |
| `Recommend.SurvivorsSorted` | proj2functions.py:493-506 | the survivors are in non-increasing order of score |
| `Recommend.ChosenSpec` | proj2functions.py:476-516 | exactly `limit` recipes are chosen, or all survivors when there are fewer, and none when `limit` is not positive; each is a recipe with its true positive score that shares an ingredient with the user (when any are given), is within the ceiling and has a rating at or above the floor (when those are given); the chosen list is sorted by score, no survivor left out scores higher, and every recipe that passes all the tests survives |
| `Recommend.ChosenEntries` | proj2functions.py:476-506 | each chosen entry is a recipe vertex with its true positive score that passes the price and rating tests |
| `Recommend.ChosenRanked` | proj2functions.py:493-516 | the chosen list is a prefix of the survivors of the stated length, sorted by score, and no survivor left out scores higher |
| `Recommend.SurvivorsComplete` | proj2functions.py:493-506 | every scoring recipe that passes both tests is a survivor |
| `Recommend.ChosenTitlesDistinct` | proj2functions.py:479-516 | no recipe is chosen twice |
| `Recommend.ChosenStable` | proj2functions.py:493 | chosen recipes with equal scores keep the order in which `filter_kind('recipe')` lists them |
| `Recommend.DetailsSeparate` | proj2functions.py:514-518 | the chosen recipes of a bipartite, priced graph are priced, and no title is another recipe's ingredient |
| `Recommend.DetailsKeys` | proj2functions.py:514-518 | the titles of the chosen recipes are exactly the chosen keys, and their ingredients are exactly the ingredients the graph gives those keys |
| `Recommend.ChosenRecipeKeys` | proj2functions.py:508-516 | the first `limit` survivors are recipe vertices of the graph |
| `Recommend.RebuiltRecipes` | proj2functions.py:514-518 | rebuilding from chosen recipe keys raises nothing, and its recipe vertices are exactly the chosen keys |
| `Recommend.RebuiltKeys` | proj2functions.py:514-518 | the rebuilt graph's keys are the chosen recipes and their ingredients |
| `Recommend.RebuiltNodes` | proj2functions.py:514-518 | the rebuilt graph carries each chosen recipe unchanged |
| `Recommend.RecipeKeysAppend` | proj2functions.py:353-357 | when a step adds keys of which only the title is a recipe, the recipe keys in insertion order gain exactly that title at the end |
| `Recommend.OrderTurn` | proj2functions.py:515-518 | one turn of the rebuild appends its title to the recipe keys in insertion order and leaves the remaining recipes buildable |
| `Recommend.BuiltRecipeOrder` | proj2functions.py:515-518 | the rebuild loop appends the titles, in the order given, to the recipe keys in insertion order |
| `Recommend.RebuiltOrder` | proj2functions.py:514-518 | `filter_kind('recipe')` on the rebuilt graph lists the chosen recipes in the order they were chosen |
| `Recommend.RebuiltShape` | proj2functions.py:514-519 | the rebuilt graph is well formed and complete; it is empty exactly when no key is given; its recipes are the given ones, unchanged, listed in the given order when no key repeats; its other vertices are their ingredients |
| `Recommend.RecommendedRebuilds` | proj2functions.py:508-519 | the chosen keys are recipe vertices, and `filter_recipes` is the build loop from an empty graph over their recipes, also when nothing survives |
| `Recommend.RecommendedShape` | proj2functions.py:508-519 | on a well-formed bipartite graph with priced recipes, `filter_recipes` raises nothing; the result is empty exactly when nothing is chosen; otherwise it is a well-formed complete graph of the chosen recipes and their ingredients, and `filter_kind('recipe')` on it lists the chosen recipes in the order they were chosen |
| `Graphs.Graph.constructor` | proj2functions.py:328-330 | a new graph is empty and satisfies the invariant |
| `Graphs.Graph.IsEmpty` | proj2functions.py:332-334 | true exactly when the graph has no vertex |
| `Graphs.Graph.AddVertex` | proj2functions.py:336-357 | the new state and outcome are those of `Tables.WithVertex`, and the invariant is kept |
| `Graphs.Graph.AddEdge` | proj2functions.py:359-374 | the new state and outcome are those of `Tables.WithEdges`, and the invariant is kept |
| `Graphs.Graph.CheckExist` | proj2functions.py:376-391 | true exactly when the item is a key |
| `Graphs.Graph.GetItem` | proj2functions.py:433-443 | the vertex of the key, or `None` exactly when the key is absent |
| `Graphs.Graph.FilterKind` | proj2functions.py:393-407 | both loops return the vertices of the requested kind in insertion order |
| `Graphs.Graph.GetMostConnectedIngredients` | proj2functions.py:445-456 | the scoring loop, the reverse sort and the cut at ten give the ranking |
| `Graphs.Graph.GetSimilar` | proj2functions.py:521-536 | the lookup, the removal, the scoring loop, the reverse sort and the cut at five give the ranking or the `ValueError` |
| `Graphs.Graph.ScoreAgainst` | proj2functions.py:530-532 | each other ingredient is paired with its similarity to the target, in order |
| `Graphs.Graph.ScoreRecipes` | proj2functions.py:479-491 | the scoring loops give each recipe its number of user ingredients among its neighbours, keeping positive scores; every recipe scores 1 when the user gives none |
| `Graphs.Graph.PriceFilter` | proj2functions.py:495-503 | the loops keep, in order, the sorted entries with a positive score that are within the ceiling |
| `Graphs.Graph.FilterRecipes` | proj2functions.py:458-519 | the new graph and outcome are those of `Recommend.Recommended` |
| `Graphs.Graph.RankRecipes` | proj2functions.py:476-506 | scoring, the sort by score and the price and rating filters give exactly `Recommend.Survivors` |
| `Graphs.Graph.InducedSubgraph` | proj2functions.py:514-518 | the new graph is the build loop run over the recipes of the given keys |
| `Graphs.Graph.AddRecipes` | proj2functions.py:553-555 | the loop of `add_vertex` then `add_edge` over the recipes leaves the state and outcome of `Tables.Built`, and keeps the invariant |
| `Graphs.LoadedRecipes` | proj2functions.py:109-111 | the recipes are the records from position 1 on |
| `Graphs.LoadGraph` | proj2functions.py:547-557 | a `KeyError` from cleaning is returned as `Raised`; otherwise the graph is the build loop over the loaded recipes, and a raise in that loop is returned as `Raised` with the graph built so far; the graph is always well formed and every recipe in it is linked to its ingredients |

## Left out

- File and console I/O is not modelled: `get_food`, `pricestodict`, reading the CSV files in `cleancsv` and `reviews_to_dict`, the prompts `get_user_ingredients`, `get_user_single_ingredient`, `get_recipe_limit`, `get_price_limit`, `get_review_limit`, `get_recipe`, `rate_recipe`, `find_pairings`, `option_1` to `option_4`, and the menu loop of main.py. Rows, the vocabulary, the price table and the reviews arrive as parameters. `cleancsv` lowercases each vocabulary entry as it reads it on line 74 while phrase words keep their case; the `foods` parameter stands for the list already lowercased, and the model places no case condition on it.
- `cleancsv`'s parsing of the bracketed ingredient column (`strip("[]").split("', ")`) is not modelled. `Catalog.Row` carries the phrases already split.
- `filter_recipes` calls `reviews_to_dict()` on line 476. Here the mean ratings are the `ratings` parameter, which `Catalog.ReviewMeans` computes.
- `to_networkx`, proj2visualisation.py and scrape.py are not part of this model. They are networkx/plotly wrappers and a Selenium scraper.
- Prices, ratings and similarities are exact reals. `round(..., 2)` on lines 101 and 295 is not modelled. Rounding can make two near-equal similarities compare equal in `get_similar`'s ordering, and then the key decides; the model orders such scores by their exact values.
- `isalpha` and `split()` are modelled on ASCII letters and ASCII white space only.
- Vertices are identified by key, not by Python object identity.
- `Graphs.LoadGraph`: in Python a raised exception propagates out of `load_graph`. Any graph that exists at that point is discarded: on a `KeyError` from `cleancsv` on line 548 no graph has been created yet, and on a raise inside the loop on lines 553-555 the partial graph is lost. The model returns a status instead of propagating. The graph returned beside `Raised` only stands in for the exception: it is empty after a cleaning error and holds the partial build after a raise in the loop. No caller sees that graph in Python.
- `Normalizer.GetIngredients`: the documented example (`['egg', 'potato', 'salt']`) is not proved as a concrete example. The membership, uniqueness and order properties above are proved for all inputs.
- `Graphs.Graph.AddVertex`, `AddEdge`, `AddRecipes`, `FilterKind`, `GetMostConnectedIngredients`, `GetSimilar`, `RankRecipes` and `FilterRecipes`: these require the graph invariant `Valid()`. Every graph is built by the constructor, `add_vertex` and `add_edge`, which all keep that invariant.
- `Graphs.Graph.AddEdge`: because it requires `Valid()`, every ingredient of a recipe is a key, so the `KeyError` that line 370 can raise is unreachable. `Tables.LinkAll` models that error for arbitrary tables.
- `Recommend.RecommendedShape`: this holds only when no recipe title is also an ingredient name (`Bipartite`) and the price table prices every recipe's ingredients. When a title clashes with an ingredient, the Python rebuild can raise or link a recipe to a recipe; the model covers those cases only through `Recommend.Recommended`'s outcome.

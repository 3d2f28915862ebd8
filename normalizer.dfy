/**
  The ingredient normaliser: turns free-text ingredient phrases of a recipe
  ("1 pound new potatoes (about 1 inch in diameter)") into canonical ingredient
  names taken from a fixed vocabulary ("potato").

  A phrase is split into words at white space, each word keeps its letters
  only, is singularised by four suffix rules, and is kept when the vocabulary
  holds it and it has not been kept before.
*/
module Normalizer {

  // ---------------------------------------------------------------------------
  // Characters
  // ---------------------------------------------------------------------------

  /** Python's `str.isspace` restricted to ASCII: tab, line feed, vertical tab,
      form feed, carriage return, the four separators 0x1C-0x1F and space. */
  predicate IsSpace(c: char) {
    ('\U{9}' <= c <= '\U{D}') || ('\U{1C}' <= c <= '\U{20}')
  }

  /** Python's `str.isalpha` restricted to ASCII letters. */
  predicate IsLetter(c: char) {
    ('a' <= c <= 'z') || ('A' <= c <= 'Z')
  }

  predicate EndsWith(w: string, suffix: string) {
    |suffix| <= |w| && w[|w| - |suffix|..] == suffix
  }

  // ---------------------------------------------------------------------------
  // singularize
  // ---------------------------------------------------------------------------

  /** The four suffix rules, tried in this order: "ies" -> "y", "ves" -> "f",
      "es" -> "", and a final "s" dropped unless the word ends in "ss", "us"
      or "is". */
  function Singularize(w: string): (r: string)
    ensures |r| <= |w|
  {
    if EndsWith(w, "ies") then w[..|w| - 3] + "y"
    else if EndsWith(w, "ves") then w[..|w| - 3] + "f"
    else if EndsWith(w, "es") then w[..|w| - 2]
    else if EndsWith(w, "s") && !(EndsWith(w, "ss") || EndsWith(w, "us") || EndsWith(w, "is")) then w[..|w| - 1]
    else w
  }

  /** A word is left as it is exactly when it does not end in "s", or ends in
      "ss", "us" or "is"; every other word becomes strictly shorter. */
  lemma SingularizeFixedIff(w: string)
    ensures Singularize(w) == w <==>
            (!EndsWith(w, "s") || EndsWith(w, "ss") || EndsWith(w, "us") || EndsWith(w, "is"))
    ensures Singularize(w) != w ==> |Singularize(w)| < |w|
  {
    var n := |w|;
    if EndsWith(w, "s") {
      assert w[n - 1] == 's' by { assert w[n - 1..][0] == w[n - 1]; }
      if EndsWith(w, "es") || EndsWith(w, "ies") || EndsWith(w, "ves") {
        assert w[n - 2] == 'e' by {
          if EndsWith(w, "ies") || EndsWith(w, "ves") {
            assert w[n - 3..][1] == w[n - 2];
          } else {
            assert w[n - 2..][0] == w[n - 2];
          }
        }
        assert !EndsWith(w, "ss") && !EndsWith(w, "us") && !EndsWith(w, "is") by {
          if n >= 2 { assert w[n - 2..][0] == w[n - 2]; }
        }
        assert |Singularize(w)| <= n - 2;
      }
    }
  }

  /** Each rule only touches the last three characters: the stem before them
      is kept. */
  lemma SingularizeKeepsStem(w: string)
    requires |w| >= 3
    ensures |Singularize(w)| >= |w| - 2
    ensures Singularize(w)[..|w| - 3] == w[..|w| - 3]
  {
  }

  /** Letters in, letters out: the rules only write the letters 'y' and 'f'. */
  lemma SingularizeLetters(w: string)
    requires forall i :: 0 <= i < |w| ==> IsLetter(w[i])
    ensures forall i :: 0 <= i < |Singularize(w)| ==> IsLetter(Singularize(w)[i])
  {
    var r := Singularize(w);
    if EndsWith(w, "ies") || EndsWith(w, "ves") {
      forall i | 0 <= i < |r| ensures IsLetter(r[i]) {
        if i < |w| - 3 { assert r[i] == w[i]; }
      }
    } else {
      forall i | 0 <= i < |r| ensures IsLetter(r[i]) {
        assert r[i] == w[i];
      }
    }
  }

  /** The documented examples: berries -> berry, leaves -> leaf, dishes -> dish
      and cars -> car. */
  lemma SingularizeBerries()
    ensures Singularize("berries") == "berry"
  {
    assert "berries"[4..] == "ies";
  }

  lemma SingularizeLeaves()
    ensures Singularize("leaves") == "leaf"
  {
    assert "leaves"[3..] == "ves";
  }

  lemma SingularizeDishes()
    ensures Singularize("dishes") == "dish"
  {
    assert "dishes"[3..] == "hes";
    assert "dishes"[4..] == "es";
  }

  lemma SingularizeCars()
    ensures Singularize("cars") == "car"
  {
    assert "cars"[1..] == "ars";
    assert "cars"[2..] == "rs";
  }

  // ---------------------------------------------------------------------------
  // Splitting a phrase into words and keeping letters
  // ---------------------------------------------------------------------------

  /** Length of the run of non-space characters at the start of `s`. */
  function TokenLength(s: string): (n: nat)
    ensures n <= |s|
    ensures forall i :: 0 <= i < n ==> !IsSpace(s[i])
    ensures n < |s| ==> IsSpace(s[n])
  {
    if s == [] || IsSpace(s[0]) then 0 else 1 + TokenLength(s[1..])
  }

  /** Python's `str.split()` with no argument: the maximal runs of non-space
      characters, in order; runs of spaces separate words and yield none. */
  function Words(s: string): seq<string>
    decreases |s|
  {
    if s == [] then []
    else if IsSpace(s[0]) then Words(s[1..])
    else
      var n := TokenLength(s);
      assert n >= 1;
      [s[..n]] + Words(s[n..])
  }

  /** The letters of `w`, in order (`''.join(c for c in w if c.isalpha())`). */
  function Letters(w: string): (r: string)
    ensures |r| <= |w|
    ensures forall i :: 0 <= i < |r| ==> IsLetter(r[i])
  {
    if w == [] then []
    else (if IsLetter(w[0]) then [w[0]] else []) + Letters(w[1..])
  }

  /** A word made of letters only is kept whole. */
  lemma {:induction false} LettersOfLetters(w: string)
    requires forall i :: 0 <= i < |w| ==> IsLetter(w[i])
    ensures Letters(w) == w
  {
    if w != [] {
      LettersOfLetters(w[1..]);
    }
  }

  /** One character is kept exactly when it is a letter. */
  lemma LettersOfChar(c: char)
    ensures Letters([c]) == if IsLetter(c) then [c] else []
  {
    assert [c][1..] == [];
  }

  /** Filtering a concatenation filters each part: together with
      `LettersOfChar`, every letter of the word is kept, in order, and
      nothing else. */
  lemma {:induction false} LettersAppend(a: string, b: string)
    ensures Letters(a + b) == Letters(a) + Letters(b)
  {
    if a != [] {
      assert (a + b)[0] == a[0];
      assert (a + b)[1..] == a[1..] + b;
      LettersAppend(a[1..], b);
    } else {
      assert a + b == b;
    }
  }

  // ---------------------------------------------------------------------------
  // get_ingredients
  // ---------------------------------------------------------------------------

  /** The singularised non-empty letter words of `words`, in order. */
  function WordKeys(words: seq<string>): seq<string>
  {
    if words == [] then []
    else
      var w := Letters(words[|words| - 1]);
      WordKeys(words[..|words| - 1]) + (if w == [] then [] else [Singularize(w)])
  }

  /** The candidate names of all phrases, phrase after phrase. */
  function PhraseKeys(phrases: seq<string>): seq<string>
  {
    if phrases == [] then []
    else PhraseKeys(phrases[..|phrases| - 1]) + WordKeys(Words(phrases[|phrases| - 1]))
  }

  /** Keeps, in order, each element of `s` that is in `foods` and has not
      been kept already. */
  function KeepNew(s: seq<string>, foods: seq<string>): seq<string>
  {
    if s == [] then []
    else
      var kept := KeepNew(s[..|s| - 1], foods);
      var w := s[|s| - 1];
      if w in foods && w !in kept then kept + [w] else kept
  }

  /** What `get_ingredients(foods, phrases)` returns. */
  function Canonical(foods: seq<string>, phrases: seq<string>): seq<string>
  {
    KeepNew(PhraseKeys(phrases), foods)
  }

  predicate Distinct(s: seq<string>) {
    forall i, j :: 0 <= i < j < |s| ==> s[i] != s[j]
  }

  /** The index of the first occurrence of `x` in `s`. */
  function IndexOf(s: seq<string>, x: string): (k: nat)
    requires x in s
    ensures k < |s| && s[k] == x
    ensures forall i :: 0 <= i < k ==> s[i] != x
  {
    if s[0] == x then 0 else 1 + IndexOf(s[1..], x)
  }

  lemma {:induction false} IndexOfAppend(s: seq<string>, c: string, x: string)
    requires x in s
    ensures IndexOf(s + [c], x) == IndexOf(s, x)
  {
    if s[0] != x {
      assert (s + [c])[1..] == s[1..] + [c];
      IndexOfAppend(s[1..], c, x);
    }
  }

  /** A name is kept exactly when it is a vocabulary entry among the candidates. */
  lemma {:induction false} KeepNewMembers(s: seq<string>, foods: seq<string>)
    ensures forall x :: x in KeepNew(s, foods) <==> x in foods && x in s
  {
    if s != [] {
      KeepNewMembers(s[..|s| - 1], foods);
      assert s == s[..|s| - 1] + [s[|s| - 1]];
    }
  }

  /** No name is kept twice. */
  lemma {:induction false} KeepNewDistinct(s: seq<string>, foods: seq<string>)
    ensures Distinct(KeepNew(s, foods))
  {
    if s != [] {
      KeepNewDistinct(s[..|s| - 1], foods);
    }
  }

  /** Kept names appear in the order of their first occurrence among the
      candidates. */
  lemma {:induction false} KeepNewFirstOccurrenceOrder(s: seq<string>, foods: seq<string>)
    ensures forall x :: x in KeepNew(s, foods) ==> x in s
    ensures forall i, j :: 0 <= i < j < |KeepNew(s, foods)| ==>
              IndexOf(s, KeepNew(s, foods)[i]) < IndexOf(s, KeepNew(s, foods)[j])
  {
    KeepNewMembers(s, foods);
    if s != [] {
      var p := s[..|s| - 1];
      var c := s[|s| - 1];
      assert s == p + [c];
      var kept := KeepNew(p, foods);
      KeepNewFirstOccurrenceOrder(p, foods);
      KeepNewMembers(p, foods);
      OrderStep(p, c, kept, KeepNew(s, foods));
    }
  }

  /** The ordering step of one more candidate `c` after the candidates `p`,
      of which `kept` were kept: the result `r` keeps the order. */
  lemma OrderStep(p: seq<string>, c: string, kept: seq<string>, r: seq<string>)
    requires forall x :: x in kept ==> x in p
    requires forall i, j :: 0 <= i < j < |kept| ==> IndexOf(p, kept[i]) < IndexOf(p, kept[j])
    requires r == kept || (r == kept + [c] && c !in p)
    ensures forall i, j :: 0 <= i < j < |r| ==> IndexOf(p + [c], r[i]) < IndexOf(p + [c], r[j])
  {
    OrderExtends(p, c, kept);
    if r != kept {
      OrderAppend(p, c, kept);
    }
  }

  /** An order by first occurrence in `p` is kept when `p` grows at the end. */
  lemma OrderExtends(p: seq<string>, c: string, kept: seq<string>)
    requires forall x :: x in kept ==> x in p
    requires forall i, j :: 0 <= i < j < |kept| ==> IndexOf(p, kept[i]) < IndexOf(p, kept[j])
    ensures forall i, j :: 0 <= i < j < |kept| ==> IndexOf(p + [c], kept[i]) < IndexOf(p + [c], kept[j])
  {
    forall x | x in kept ensures IndexOf(p + [c], x) == IndexOf(p, x) {
      IndexOfAppend(p, c, x);
    }
  }

  /** A name first seen at the end comes after every earlier one. */
  lemma OrderAppend(p: seq<string>, c: string, kept: seq<string>)
    requires forall x :: x in kept ==> x in p
    requires c !in p
    requires forall i, j :: 0 <= i < j < |kept| ==> IndexOf(p + [c], kept[i]) < IndexOf(p + [c], kept[j])
    ensures forall i, j :: 0 <= i < j < |kept + [c]| ==>
              IndexOf(p + [c], (kept + [c])[i]) < IndexOf(p + [c], (kept + [c])[j])
  {
    var s := p + [c];
    var r := kept + [c];
    assert IndexOf(s, c) == |p| by {
      assert s[|p|] == c;
    }
    forall i, j | 0 <= i < j < |r| ensures IndexOf(s, r[i]) < IndexOf(s, r[j]) {
      assert r[i] == kept[i] && r[i] in p;
      if j < |kept| {
        assert r[j] == kept[j];
      } else {
        assert r[j] == c;
      }
    }
  }

  /** One more word adds its key, if it has one. */
  lemma WordKeysStep(words: seq<string>, j: nat)
    requires j < |words|
    ensures WordKeys(words[..j + 1]) ==
            WordKeys(words[..j]) + (if Letters(words[j]) == [] then [] else [Singularize(Letters(words[j]))])
  {
    assert words[..j + 1][..j] == words[..j];
  }

  /** One more candidate is kept when it is a vocabulary entry not kept yet. */
  lemma KeepNewStep(before: seq<string>, s: seq<string>, c: string, foods: seq<string>)
    ensures KeepNew(before + (s + [c]), foods) ==
            if c in foods && c !in KeepNew(before + s, foods) then KeepNew(before + s, foods) + [c]
            else KeepNew(before + s, foods)
  {
    assert before + (s + [c]) == (before + s) + [c];
    assert ((before + s) + [c])[..|before + s|] == before + s;
  }

  /** The nested loops of get_ingredients: for each phrase, for each of its
      words, keep the singularised letter word when it is a vocabulary entry
      not yet kept. */
  method GetIngredients(foods: seq<string>, phrases: seq<string>) returns (cleaned: seq<string>)
    ensures cleaned == Canonical(foods, phrases)
    ensures forall x :: x in cleaned <==> x in foods && x in PhraseKeys(phrases)
    ensures Distinct(cleaned)
  {
    cleaned := [];
    for i := 0 to |phrases|
      invariant cleaned == KeepNew(PhraseKeys(phrases[..i]), foods)
    {
      var words := Words(phrases[i]);
      ghost var before := PhraseKeys(phrases[..i]);
      assert phrases[..i + 1][..i] == phrases[..i];
      assert words[..0] == [];
      assert before + WordKeys(words[..0]) == before;
      for j := 0 to |words|
        invariant cleaned == KeepNew(before + WordKeys(words[..j]), foods)
      {
        WordKeysStep(words, j);
        var w := Letters(words[j]);
        if w != [] {
          w := Singularize(w);
          KeepNewStep(before, WordKeys(words[..j]), w, foods);
          if w in foods && w !in cleaned {
            cleaned := cleaned + [w];
          }
        } else {
          assert before + WordKeys(words[..j + 1]) == before + WordKeys(words[..j]);
        }
      }
      assert words[..|words|] == words;
    }
    assert phrases[..|phrases|] == phrases;
    KeepNewMembers(PhraseKeys(phrases), foods);
    KeepNewDistinct(PhraseKeys(phrases), foods);
  }

  // ---------------------------------------------------------------------------
  // Facts about splitting and keys
  // ---------------------------------------------------------------------------

  lemma {:induction false} TokenLengthStopsAtSpace(a: string, c: char, b: string)
    requires IsSpace(c)
    ensures TokenLength(a + [c] + b) == TokenLength(a)
  {
    if a == [] {
      assert a + [c] + b == [c] + b;
    } else if !IsSpace(a[0]) {
      assert (a + [c] + b)[1..] == a[1..] + [c] + b;
      TokenLengthStopsAtSpace(a[1..], c, b);
    }
  }

  /** Splitting at a white-space character splits the list of words. */
  lemma {:induction false} WordsSplitAtSpace(a: string, c: char, b: string)
    requires IsSpace(c)
    ensures Words(a + [c] + b) == Words(a) + Words(b)
    decreases |a|
  {
    var s := a + [c] + b;
    if a == [] {
      assert s == [c] + b;
      assert s[1..] == b;
    } else if IsSpace(a[0]) {
      assert s[1..] == a[1..] + [c] + b;
      WordsSplitAtSpace(a[1..], c, b);
    } else {
      var n := TokenLength(s);
      TokenLengthStopsAtSpace(a, c, b);
      assert s[..n] == a[..n];
      assert s[n..] == a[n..] + [c] + b;
      WordsSplitAtSpace(a[n..], c, b);
    }
  }

  lemma {:induction false} TokenLengthOfWord(w: string)
    requires forall i :: 0 <= i < |w| ==> !IsSpace(w[i])
    ensures TokenLength(w) == |w|
  {
    if w != [] {
      TokenLengthOfWord(w[1..]);
    }
  }

  /** A non-empty run without white space is one word. */
  lemma WordsOfWord(w: string)
    requires w != []
    requires forall i :: 0 <= i < |w| ==> !IsSpace(w[i])
    ensures Words(w) == [w]
  {
    TokenLengthOfWord(w);
    assert w[..|w|] == w;
    assert w[|w|..] == [];
  }

  lemma {:induction false} WordKeysAppend(a: seq<string>, b: seq<string>)
    ensures WordKeys(a + b) == WordKeys(a) + WordKeys(b)
  {
    if b != [] {
      var b' := b[..|b| - 1];
      assert (a + b)[..|a + b| - 1] == a + b';
      WordKeysAppend(a, b');
    } else {
      assert a + b == a;
    }
  }

  /** A word of letters that does not end in 's' is its own key. */
  lemma WordKey(w: string)
    requires w != [] && w[|w| - 1] != 's'
    requires forall i :: 0 <= i < |w| ==> IsLetter(w[i])
    ensures WordKeys([w]) == [w]
  {
    LettersOfLetters(w);
    assert [w][..0] == [];
    assert !EndsWith(w, "s");
    SingularizeFixedIff(w);
  }

  /** The words joined with single spaces. */
  function JoinWords(ws: seq<string>): string
  {
    if |ws| == 0 then "" else if |ws| == 1 then ws[0] else ws[0] + " " + JoinWords(ws[1..])
  }

  /** Splitting undoes joining with spaces, for words that are non-empty and
      hold no white space. */
  lemma {:induction false} WordsOfJoin(ws: seq<string>)
    requires forall k :: 0 <= k < |ws| ==> ws[k] != [] && forall i :: 0 <= i < |ws[k]| ==> !IsSpace(ws[k][i])
    ensures Words(JoinWords(ws)) == ws
  {
    if |ws| == 1 {
      WordsOfWord(ws[0]);
    } else if |ws| > 1 {
      WordsOfJoin(ws[1..]);
      WordsOfWord(ws[0]);
      assert ws[0] + " " + JoinWords(ws[1..]) == ws[0] + [' '] + JoinWords(ws[1..]);
      WordsSplitAtSpace(ws[0], ' ', JoinWords(ws[1..]));
      assert ws == [ws[0]] + ws[1..];
    }
  }
}

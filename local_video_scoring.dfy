/** How the local clip matcher scores a file name against a keyword list, and how it ranks the
    scored files. These functions are the reference the imperative search in module LocalVideo
    is proved against. */
module LocalVideoScoring {
  import opened Text
  import opened Seqs

  const CarRelated: seq<string> := ["car", "automobile", "vehicle", "driving", "lamborghini", "forza", "centenario"]
  const CatRelated: seq<string> := ["cat", "kitten", "kitty", "feline", "pet", "cute"]
  const PetRelated: seq<string> := ["cat", "kitten", "puppy", "dog", "pet", "animal", "cute"]
  const DogRelated: seq<string> := ["puppy", "dog", "pet", "animal", "cute", "funny"]
  const SunRelated: seq<string> := ["sunrise", "sunset", "beautiful", "nature"]
  const SnowRelated: seq<string> := ["snow", "winter", "cold", "chicago"]

  /** The fixed synonym table: a concept word and the file-name tokens related to it. */
  const KeywordMapping: map<string, seq<string>> := map[
    "car" := CarRelated,
    "vehicle" := CarRelated,
    "driving" := CarRelated,
    "lights" := ["lights", "city", "manhattan", "urban", "night", "street"],
    "city" := ["city", "manhattan", "urban", "lights", "street", "plaza"],
    "night" := ["night", "lights", "city", "manhattan", "urban"],
    "cat" := CatRelated,
    "kitten" := CatRelated,
    "pet" := PetRelated,
    "animal" := PetRelated,
    "puppy" := DogRelated,
    "dog" := DogRelated,
    "nature" := ["nature", "mountain", "sunrise", "sunset", "landscape", "beautiful"],
    "mountain" := ["mountain", "nature", "landscape", "ai"],
    "sunrise" := SunRelated,
    "sunset" := SunRelated,
    "beautiful" := ["beautiful", "sunrise", "sunset", "nature"],
    "snow" := SnowRelated,
    "winter" := SnowRelated,
    "playing" := ["playing", "funny", "cute", "kitten", "puppy", "falling"],
    "cute" := ["cute", "kitten", "puppy", "funny"],
    "funny" := ["funny", "cute", "puppy", "kitten"]
  ]

  // ---------------------------------------------------------------------------
  // The score of one keyword against a lower-cased file name `fl`, rule by rule

  /** Some token of `related` occurs in the file name. */
  predicate AnyRelatedIn(related: seq<string>, fl: string)
  {
    exists j :: 0 <= j < |related| && Contains(fl, related[j])
  }

  /** `w` is a key of the synonym table and one of its related tokens is in the file name. */
  predicate MappedHit(w: string, fl: string)
  {
    w in KeywordMapping && AnyRelatedIn(KeywordMapping[w], fl)
  }

  /** Number of entries of `words` (counting repeats) found in the file name. */
  function WordHits(words: seq<string>, fl: string): nat
  {
    if words == [] then 0
    else WordHits(words[..|words| - 1], fl) + (if Contains(fl, words[|words| - 1]) then 1 else 0)
  }

  /** Number of entries of `words` (counting repeats) that are table keys with a related token in the file name. */
  function MappedWordHits(words: seq<string>, fl: string): nat
  {
    if words == [] then 0
    else MappedWordHits(words[..|words| - 1], fl) + (if MappedHit(words[|words| - 1], fl) then 1 else 0)
  }

  /** Some whitespace-separated word of the file name contains the keyword or lies inside it. */
  predicate PartialHit(kl: string, fileWords: seq<string>)
  {
    exists j :: 0 <= j < |fileWords| && (Contains(fileWords[j], kl) || Contains(kl, fileWords[j]))
  }

  function DirectBonus(kl: string, fl: string): nat { if Contains(fl, kl) then 10 else 0 }

  function KittenBonus(words: seq<string>, fl: string): nat
  {
    if "cat" in words && Contains(fl, "kitten") then 15 else 0
  }

  function MappingBonus(kl: string, fl: string): nat { if MappedHit(kl, fl) then 5 else 0 }

  function PartialBonus(kl: string, fl: string): nat { if PartialHit(kl, SplitWords(fl)) then 2 else 0 }

  /** What one keyword adds to a file's score: +10 direct, +8 per keyword word found, +15 for
      cat against kitten, +5 once through the table for the whole keyword, +5 per keyword word
      through the table, +2 once for a partial word overlap. */
  function KeywordScore(keyword: string, fl: string): nat
  {
    var kl := Lower(keyword);
    var words := SplitWords(kl);
    DirectBonus(kl, fl) + 8 * WordHits(words, fl) + KittenBonus(words, fl)
      + MappingBonus(kl, fl) + 5 * MappedWordHits(words, fl) + PartialBonus(kl, fl)
  }

  /** The score each keyword adds against file name `fl`. */
  function KeywordScores(fl: string): string -> nat
  {
    k => KeywordScore(k, fl)
  }

  /** A file's score: the sum over the keyword list. */
  function Score(keywords: seq<string>, fl: string): nat
  {
    Total(keywords, KeywordScores(fl))
  }

  // ---------------------------------------------------------------------------
  // Properties of the score

  lemma {:induction false} WordHitsBound(words: seq<string>, fl: string)
    ensures WordHits(words, fl) <= |words|
    ensures MappedWordHits(words, fl) <= |words|
  {
    if words != [] {
      WordHitsBound(words[..|words| - 1], fl);
    }
  }

  /** A word of `words` that has a table hit is counted. */
  lemma {:induction false} MappedWordCounted(words: seq<string>, fl: string, i: nat)
    requires i < |words| && MappedHit(words[i], fl)
    ensures MappedWordHits(words, fl) >= 1
  {
    if i < |words| - 1 {
      MappedWordCounted(words[..|words| - 1], fl, i);
    }
  }

  /** A keyword found verbatim (lowered) in the file name adds at least 10. */
  lemma DirectMatchScores(keyword: string, fl: string)
    requires Contains(fl, Lower(keyword))
    ensures KeywordScore(keyword, fl) >= 10
  {
  }

  /** The keyword word "cat" against a file name holding "kitten" adds at least 20: the +15
      rule and the table's +5 for the word "cat". */
  lemma CatKittenScores(keyword: string, fl: string)
    requires "cat" in SplitWords(Lower(keyword)) && Contains(fl, "kitten")
    ensures KeywordScore(keyword, fl) >= 20
  {
    var words := SplitWords(Lower(keyword));
    var i :| 0 <= i < |words| && words[i] == "cat";
    CatIsMapped(fl);
    MappedWordCounted(words, fl, i);
    assert KittenBonus(words, fl) == 15;
  }

  lemma CatIsMapped(fl: string)
    requires Contains(fl, "kitten")
    ensures MappedHit("cat", fl)
  {
    assert KeywordMapping["cat"] == CatRelated;
    assert Contains(fl, CatRelated[1]);
  }

  /** The direct, table and partial bonuses count once per keyword and the word rules once
      per keyword word, so a keyword adds at most 32 + 13 per word. */
  lemma KeywordScoreBound(keyword: string, fl: string)
    ensures KeywordScore(keyword, fl) <= 32 + 13 * |SplitWords(Lower(keyword))|
  {
    WordHitsBound(SplitWords(Lower(keyword)), fl);
  }

  /** A file scores above zero exactly when some keyword contributes. */
  lemma ScorePositiveIff(keywords: seq<string>, fl: string)
    ensures Score(keywords, fl) > 0 <==> exists i :: 0 <= i < |keywords| && KeywordScore(keywords[i], fl) > 0
  {
    TotalPositiveIff(keywords, KeywordScores(fl));
  }

  /** The score does not depend on the order of the keywords: the keyword lists come from
      Python sets, whose order is unspecified, yet every order ranks the files alike. */
  lemma ScorePermutation(a: seq<string>, b: seq<string>, fl: string)
    requires multiset(a) == multiset(b)
    ensures Score(a, fl) == Score(b, fl)
  {
    TotalPermutation(a, b, KeywordScores(fl));
  }

  // ---------------------------------------------------------------------------
  // The keyword list ["cat", "playing"] against a kitten clip and a car clip

  /** No token of the "cat" table entry occurs in a name lacking 'c', 'k', 'f' and 't'. */
  lemma CatTokensMiss(fl: string)
    requires 'c' !in fl && 'k' !in fl && 'f' !in fl && 't' !in fl
    ensures !AnyRelatedIn(CatRelated, fl)
  {
    MissingCharNotContained(fl, "cat", 'c');
    MissingCharNotContained(fl, "kitten", 'k');
    MissingCharNotContained(fl, "kitty", 'k');
    MissingCharNotContained(fl, "feline", 'f');
    MissingCharNotContained(fl, "pet", 't');
    MissingCharNotContained(fl, "cute", 't');
  }

  /** No token of the "playing" table entry occurs in a name lacking 'y', 'f', 't' and 'k'. */
  lemma PlayingTokensMiss(fl: string)
    requires 'y' !in fl && 'f' !in fl && 't' !in fl && 'k' !in fl
    ensures !AnyRelatedIn(KeywordMapping["playing"], fl)
  {
    assert KeywordMapping["playing"] == ["playing", "funny", "cute", "kitten", "puppy", "falling"];
    MissingCharNotContained(fl, "playing", 'y');
    MissingCharNotContained(fl, "funny", 'f');
    MissingCharNotContained(fl, "cute", 't');
    MissingCharNotContained(fl, "kitten", 'k');
    MissingCharNotContained(fl, "puppy", 'y');
    MissingCharNotContained(fl, "falling", 'f');
  }

  /** A one-word lower-case keyword in the table earns nothing against a one-word name that
      is longer than it, lacks one of its characters, lacks "kitten" and misses its table
      tokens. */
  lemma SingleWordMisses(keyword: string, fl: string, c: char)
    requires keyword != [] && forall ch <- keyword :: 'a' <= ch <= 'z'
    requires fl != [] && forall ch <- fl :: !IsSpace(ch)
    requires |fl| > |keyword| && c in keyword && c !in fl && !Contains(fl, "kitten")
    requires keyword in KeywordMapping && !AnyRelatedIn(KeywordMapping[keyword], fl)
    ensures KeywordScore(keyword, fl) == 0
  {
    LowerOfLower(keyword);
    assert forall ch <- keyword :: !IsSpace(ch);
    SplitWordsSingle(keyword);
    SplitWordsSingle(fl);
    MissingCharNotContained(fl, keyword, c);
    LongerNotContained(keyword, fl);
    var words := SplitWords(Lower(keyword));
    assert words == [keyword];
    assert DirectBonus(keyword, fl) == 0;
    assert WordHits(words, fl) == 0 by {
      assert words[..0] == [];
    }
    assert KittenBonus(words, fl) == 0;
    assert MappingBonus(keyword, fl) == 0;
    assert MappedWordHits(words, fl) == 0 by {
      assert words[..0] == [];
    }
    NoPartialHitInOneWord(keyword, fl);
  }

  lemma NoPartialHitInOneWord(kl: string, w: string)
    requires !Contains(w, kl) && !Contains(kl, w)
    ensures !PartialHit(kl, [w])
  {
  }

  /** The score of a two-keyword list is the sum of the two keywords' points. */
  lemma ScorePair(k1: string, k2: string, fl: string)
    ensures Score([k1, k2], fl) == KeywordScore(k1, fl) + KeywordScore(k2, fl)
  {
    TotalPair(k1, k2, KeywordScores(fl));
  }

  /** The keyword "cat" earns at least 20 against a file name holding "kitten". */
  lemma CatScoresOnKitten(kitten: string)
    requires Contains(kitten, "kitten")
    ensures KeywordScore("cat", kitten) >= 20
  {
    LowerOfLower("cat");
    SplitWordsSingle("cat");
    CatKittenScores("cat", kitten);
  }

  /** Neither "cat" nor "playing" earns anything against a one-word name longer than
      "playing" that lacks the letters c, k, f, t and y. */
  lemma NothingScoresOnCar(car: string)
    requires car != [] && (forall ch <- car :: !IsSpace(ch)) && |car| > 7
    requires 'c' !in car && 'k' !in car && 'f' !in car && 't' !in car && 'y' !in car
    ensures KeywordScore("cat", car) == 0 && KeywordScore("playing", car) == 0
  {
    MissingCharNotContained(car, "kitten", 'k');
    CatNothingOnCar(car);
    PlayingNothingOnCar(car);
  }

  lemma CatNothingOnCar(car: string)
    requires car != [] && (forall ch <- car :: !IsSpace(ch)) && |car| > 7
    requires 'c' !in car && 'k' !in car && 'f' !in car && 't' !in car && !Contains(car, "kitten")
    ensures KeywordScore("cat", car) == 0
  {
    CatTokensMiss(car);
    assert KeywordMapping["cat"] == CatRelated;
    SingleWordMisses("cat", car, 'c');
  }

  lemma PlayingNothingOnCar(car: string)
    requires car != [] && (forall ch <- car :: !IsSpace(ch)) && |car| > 7
    requires 'k' !in car && 'f' !in car && 't' !in car && 'y' !in car && !Contains(car, "kitten")
    ensures KeywordScore("playing", car) == 0
  {
    PlayingTokensMiss(car);
    SingleWordMisses("playing", car, 'y');
  }

  /** Against the keywords "cat" and "playing", a file name holding "kitten" scores at least
      20, and a one-word name longer than "playing" that lacks the letters c, k, f, t and y
      scores nothing. */
  lemma KittenBeatsCar(kitten: string, car: string)
    requires Contains(kitten, "kitten")
    requires car != [] && (forall ch <- car :: !IsSpace(ch)) && |car| > 7
    requires 'c' !in car && 'k' !in car && 'f' !in car && 't' !in car && 'y' !in car
    ensures Score(["cat", "playing"], kitten) >= 20
    ensures Score(["cat", "playing"], car) == 0
  {
    ScorePair("cat", "playing", kitten);
    ScorePair("cat", "playing", car);
    CatScoresOnKitten(kitten);
    NothingScoresOnCar(car);
  }

  /** The file names "funny_kitten_playing.mp4" and "lamborghini_drive.mp4" meet the
      conditions of `KittenBeatsCar`. */
  lemma ExampleFileNames(kitten: string, car: string)
    requires kitten == "funny_kitten_playing.mp4" && car == "lamborghini_drive.mp4"
    ensures Contains(kitten, "kitten")
    ensures car != [] && (forall ch <- car :: !IsSpace(ch)) && |car| > 7
    ensures 'c' !in car && 'k' !in car && 'f' !in car && 't' !in car && 'y' !in car
  {
    assert OccursAt(kitten, "kitten", 6);
    OccurrenceContained(kitten, "kitten", 6);
  }

  // ---------------------------------------------------------------------------
  // Ranking: a stable sort by descending score (Python's list.sort(key=..., reverse=True))

  datatype Scored<T> = Scored(item: T, score: nat)

  predicate NonIncreasing<T>(r: seq<Scored<T>>)
  {
    forall i, j :: 0 <= i < j < |r| ==> r[i].score >= r[j].score
  }

  /** The entries of `s` that carry score `v`, in their order in `s`. */
  function WithScore<T>(s: seq<Scored<T>>, v: nat): seq<Scored<T>>
  {
    if s == [] then []
    else (if s[0].score == v then [s[0]] else []) + WithScore(s[1..], v)
  }

  lemma {:induction false} WithScoreAppend<T>(a: seq<Scored<T>>, b: seq<Scored<T>>, v: nat)
    ensures WithScore(a + b, v) == WithScore(a, v) + WithScore(b, v)
  {
    if a != [] {
      WithScoreAppend(a[1..], b, v);
      assert (a + b)[1..] == a[1..] + b;
    } else {
      assert a + b == b;
    }
  }

  /** Put `e` after every entry of the sorted `r` whose score is at least its own. */
  function Insert<T>(r: seq<Scored<T>>, e: Scored<T>): (out: seq<Scored<T>>)
    requires NonIncreasing(r)
    ensures NonIncreasing(out)
    ensures multiset(out) == multiset(r) + multiset{e}
    ensures forall v :: WithScore(out, v) == WithScore(r, v) + WithScore([e], v)
  {
    if r == [] then [e]
    else if r[|r| - 1].score >= e.score then
      AppendKeepsOrder(r, e);
      r + [e]
    else
      var front := Insert(r[..|r| - 1], e);
      InsertBeforeLastSorted(r, e, front);
      InsertBeforeLastStable(r, e, front);
      front + [r[|r| - 1]]
  }

  lemma AppendKeepsOrder<T>(r: seq<Scored<T>>, e: Scored<T>)
    requires NonIncreasing(r) && r != [] && r[|r| - 1].score >= e.score
    ensures NonIncreasing(r + [e])
    ensures forall v :: WithScore(r + [e], v) == WithScore(r, v) + WithScore([e], v)
  {
    forall v ensures WithScore(r + [e], v) == WithScore(r, v) + WithScore([e], v) {
      WithScoreAppend(r, [e], v);
    }
  }

  lemma InsertBeforeLastSorted<T>(r: seq<Scored<T>>, e: Scored<T>, front: seq<Scored<T>>)
    requires NonIncreasing(r) && r != [] && r[|r| - 1].score < e.score
    requires NonIncreasing(front) && multiset(front) == multiset(r[..|r| - 1]) + multiset{e}
    ensures NonIncreasing(front + [r[|r| - 1]])
    ensures multiset(front + [r[|r| - 1]]) == multiset(r) + multiset{e}
  {
    var last := r[|r| - 1];
    assert r == r[..|r| - 1] + [last];
    forall k | 0 <= k < |front| ensures front[k].score >= last.score {
      assert front[k] in multiset(front);
      if front[k] != e {
        assert front[k] in multiset(r[..|r| - 1]);
        var m :| 0 <= m < |r| - 1 && r[..|r| - 1][m] == front[k];
        assert r[m] == front[k];
      }
    }
  }

  lemma InsertBeforeLastStable<T>(r: seq<Scored<T>>, e: Scored<T>, front: seq<Scored<T>>)
    requires r != [] && r[|r| - 1].score < e.score
    requires forall v :: WithScore(front, v) == WithScore(r[..|r| - 1], v) + WithScore([e], v)
    ensures forall v :: WithScore(front + [r[|r| - 1]], v) == WithScore(r, v) + WithScore([e], v)
  {
    var last := r[|r| - 1];
    var init := r[..|r| - 1];
    assert r == init + [last];
    forall v ensures WithScore(front + [last], v) == WithScore(r, v) + WithScore([e], v) {
      WithScoreAppend(front, [last], v);
      WithScoreAppend(init, [last], v);
    }
  }

  /** The entries of `s` sorted by descending score; equal scores keep their order in `s`. */
  function Rank<T>(s: seq<Scored<T>>): (r: seq<Scored<T>>)
    ensures NonIncreasing(r)
    ensures multiset(r) == multiset(s)
    ensures forall v :: WithScore(r, v) == WithScore(s, v)
  {
    if s == [] then []
    else
      var init := s[..|s| - 1];
      var r := Insert(Rank(init), s[|s| - 1]);
      assert s == init + [s[|s| - 1]];
      assert forall v :: WithScore(r, v) == WithScore(s, v) by {
        forall v ensures WithScore(r, v) == WithScore(s, v) {
          WithScoreAppend(init, [s[|s| - 1]], v);
        }
      }
      r
  }
}

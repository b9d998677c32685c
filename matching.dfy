/**
 The name-matching policy shared by both variants (`_is_similar` in PBObotMac.py,
 `is_similar` in pbobotplus.py): lower-case both strings and call them similar
 when `difflib.SequenceMatcher(None, a, b).ratio() >= 0.7`.

 `ratio()` is `2*M/T` with `M` the number of characters in the matching blocks
 and `T = |a| + |b|` (and `1.0` when `T == 0`). The block search itself belongs
 to the `difflib` library and is kept abstract: `M` is supplied as a `Counter`,
 and what the policy needs of it is `Plausible`. The threshold is compared in
 integers: `2*M/T >= 7/10` exactly when `20*M >= 7*T`, which also gives the
 value `1.0` for two empty strings, since then both sides are 0.
 */
module Matching {
  import Text

  /** The number of matched characters `M` that `SequenceMatcher` reports for a pair of strings. */
  type Counter = (string, string) -> nat

  /**
   What `SequenceMatcher` guarantees of `M`: the matching blocks pair equal
   characters of `a` and `b` one to one, so `M` never exceeds the size of the
   multiset intersection (the bound behind `quick_ratio()`), and a string
   matched against itself is one block of its whole length (ratio `1.0`).
   */
  ghost predicate Plausible(m: Counter)
  {
    && (forall a, b :: m(a, b) <= |multiset(a) * multiset(b)|)
    && (forall a :: m(a, a) == |a|)
  }

  /** `20*M >= 7*T`: the ratio `2*M/T` reaches the threshold 0.7. */
  predicate RatioAtLeastThreshold(matched: nat, total: nat)
  {
    20 * matched >= 7 * total
  }

  /** `_is_similar(name, target)` / `is_similar(name, target)` with the default threshold 0.7. */
  predicate IsSimilar(m: Counter, name: string, target: string)
  {
    var a, b := Text.Lower(name), Text.Lower(target);
    RatioAtLeastThreshold(m(a, b), |a| + |b|)
  }

  /** `any(is_similar(name, t) for t in targets)`. */
  predicate AnyTarget(m: Counter, name: string, targets: seq<string>)
  {
    targets != [] && (IsSimilar(m, name, targets[0]) || AnyTarget(m, name, targets[1..]))
  }

  /** A sub-multiset is no larger than the multiset that holds it. */
  lemma SubMultisetSize(x: multiset<char>, y: multiset<char>)
    requires x <= y
    ensures |x| <= |y|
    decreases |x|
  {
    if x != multiset{} {
      var e :| e in x;
      SubMultisetSize(x - multiset{e}, y - multiset{e});
    }
  }

  /** The multiset intersection is no larger than either side. */
  lemma IntersectionBound(a: string, b: string)
    ensures |multiset(a) * multiset(b)| <= |a|
    ensures |multiset(a) * multiset(b)| <= |b|
  {
    SubMultisetSize(multiset(a) * multiset(b), multiset(a));
    SubMultisetSize(multiset(a) * multiset(b), multiset(b));
  }

  /** Under a plausible counter, `M <= min(|a|, |b|)`, so the ratio lies in `[0, 1]`. */
  lemma MatchedAtMostShorter(m: Counter, a: string, b: string)
    requires Plausible(m)
    ensures m(a, b) <= |a| && m(a, b) <= |b|
    ensures 2 * m(a, b) <= |a| + |b|
  {
    IntersectionBound(a, b);
  }

  /** Case does not matter: lowering the recognised name first gives the same answer. */
  lemma {:induction false} CaseInsensitive(m: Counter, name: string, target: string)
    ensures IsSimilar(m, name, target) == IsSimilar(m, Text.Lower(name), target)
    ensures IsSimilar(m, name, target) == IsSimilar(m, name, Text.Lower(target))
  {
    Text.LowerIdempotent(name);
    Text.LowerIdempotent(target);
  }

  /** A name equal to the target up to case is always similar (ratio 1.0). */
  lemma IdenticalUpToCaseIsSimilar(m: Counter, name: string, target: string)
    requires Plausible(m)
    requires Text.Lower(name) == Text.Lower(target)
    ensures IsSimilar(m, name, target)
  {
    var a := Text.Lower(name);
    assert m(a, a) == |a|;
  }

  /**
   Similar names have comparable lengths: with `n <= t` the lengths of the two
   strings, a match needs `7*t <= 13*n`. In particular the empty name is
   similar only to the empty target.
   */
  lemma SimilarNeedsComparableLengths(m: Counter, name: string, target: string)
    requires Plausible(m)
    requires IsSimilar(m, name, target)
    ensures 7 * |target| <= 13 * |name| && 7 * |name| <= 13 * |target|
    ensures name == [] <==> target == []
  {
    MatchedAtMostShorter(m, Text.Lower(name), Text.Lower(target));
  }

  /** `AnyTarget` holds exactly when some entry of the list is similar. */
  lemma {:induction false} AnyTargetIff(m: Counter, name: string, targets: seq<string>)
    ensures AnyTarget(m, name, targets) <==> exists i :: 0 <= i < |targets| && IsSimilar(m, name, targets[i])
  {
    if targets != [] {
      AnyTargetIff(m, name, targets[1..]);
      if exists i :: 0 <= i < |targets| && IsSimilar(m, name, targets[i]) {
        var i :| 0 <= i < |targets| && IsSimilar(m, name, targets[i]);
        if i > 0 {
          assert targets[1..][i - 1] == targets[i];
        }
      }
      if exists i :: 0 <= i < |targets| - 1 && IsSimilar(m, name, targets[1..][i]) {
        var i :| 0 <= i < |targets| - 1 && IsSimilar(m, name, targets[1..][i]);
        assert targets[i + 1] == targets[1..][i];
      }
    }
  }

  /** An empty target list never matches. */
  lemma EmptyListNeverMatches(m: Counter, name: string)
    ensures !AnyTarget(m, name, [])
  {
  }

  /** A listed target that equals the name up to case always stops the bot. */
  lemma ListedNameMatches(m: Counter, name: string, targets: seq<string>, i: nat)
    requires Plausible(m)
    requires i < |targets| && Text.Lower(name) == Text.Lower(targets[i])
    ensures AnyTarget(m, name, targets)
  {
    IdenticalUpToCaseIsSimilar(m, name, targets[i]);
    AnyTargetIff(m, name, targets);
  }

  /**
   Empty recognised text matches a target list exactly when the list holds the
   empty string (two empty strings have ratio 1.0).
   */
  lemma EmptyNameMatchesOnlyEmptyTarget(m: Counter, targets: seq<string>)
    requires Plausible(m)
    ensures AnyTarget(m, "", targets) <==> "" in targets
  {
    AnyTargetIff(m, "", targets);
    if AnyTarget(m, "", targets) {
      var i :| 0 <= i < |targets| && IsSimilar(m, "", targets[i]);
      SimilarNeedsComparableLengths(m, "", targets[i]);
    }
    if "" in targets {
      var i :| 0 <= i < |targets| && targets[i] == "";
      IdenticalUpToCaseIsSimilar(m, "", targets[i]);
    }
  }

  /** `s` differs from the lower-case `low` at most in a capital first letter. */
  lemma LowersTo(s: string, low: string)
    requires |s| == |low| > 0 && s[1..] == low[1..] && Text.LowerChar(s[0]) == low[0]
    requires forall i :: 0 <= i < |low| ==> Text.LowerChar(low[i]) == low[i]
    ensures Text.Lower(s) == low
  {
    forall i | 0 <= i < |s| ensures Text.Lower(s)[i] == low[i] {
      if i > 0 {
        assert s[i] == s[1..][i - 1];
      }
    }
  }

  /** The name "Electivire" lower-cases to "electivire". */
  lemma LowerOfElectivire(name: string)
    requires name == "Electivire"
    ensures Text.Lower(name) == "electivire"
  {
    LowersTo(name, "electivire");
  }

  /** The name "Xurkitree" lower-cases to "xurkitree". */
  lemma LowerOfXurkitree(name: string)
    requires name == "Xurkitree"
    ensures Text.Lower(name) == "xurkitree"
  {
    LowersTo(name, "xurkitree");
  }

  /** The characters of "electivire". */
  lemma CharactersOfElectivire(a: string)
    requires a == "electivire"
    ensures multiset(a) == multiset{'c', 'e', 'e', 'e', 'i', 'i', 'l', 'r', 't', 'v'}
  {
  }

  /** The characters of "xurkitree". */
  lemma CharactersOfXurkitree(b: string)
    requires b == "xurkitree"
    ensures multiset(b) == multiset{'e', 'e', 'i', 'k', 'r', 'r', 't', 'u', 'x'}
  {
  }

  /** "electivire" and "xurkitree" have only e, e, i, r, t in common. */
  lemma CommonOfElectivireXurkitree(a: string, b: string)
    requires a == "electivire" && b == "xurkitree"
    ensures |multiset(a) * multiset(b)| == 5
  {
    CharactersOfElectivire(a);
    CharactersOfXurkitree(b);
    SharedCharacters();
  }

  /** The intersection of the two character multisets. */
  lemma SharedCharacters()
    ensures multiset{'c', 'e', 'e', 'e', 'i', 'i', 'l', 'r', 't', 'v'} * multiset{'e', 'e', 'i', 'k', 'r', 'r', 't', 'u', 'x'}
         == multiset{'e', 'e', 'i', 'r', 't'}
    ensures |multiset{'e', 'e', 'i', 'r', 't'}| == 5
  {
  }

  /** "Electivire" and its lower-case spelling match. */
  lemma ElectivireMatchesLowerCase(m: Counter, upper: string, lower: string)
    requires Plausible(m)
    requires upper == "Electivire" && lower == "electivire"
    ensures IsSimilar(m, upper, lower)
  {
    LowerOfElectivire(upper);
    Text.LowerIdempotent(upper);
    IdenticalUpToCaseIsSimilar(m, upper, lower);
  }

  /**
   "Electivire" and "Xurkitree" share only the characters e, e, i, r, t, so at
   most 5 of their 19 characters match and the ratio is at most 10/19 < 0.7.
   */
  lemma ElectivireIsNotXurkitree(m: Counter, name: string, target: string)
    requires Plausible(m)
    requires name == "Electivire" && target == "Xurkitree"
    ensures !IsSimilar(m, name, target)
  {
    LowerOfElectivire(name);
    LowerOfXurkitree(target);
    CommonOfElectivireXurkitree(Text.Lower(name), Text.Lower(target));
  }
}

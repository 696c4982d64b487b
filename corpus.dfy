/** The intents corpus and the training pairs built from it (app.py, lines 27-32). */
module Corpus {

  /** One record of the "intents" list: a tag, its example phrasings and its canned replies. */
  datatype Intent = Intent(tag: string, patterns: seq<string>, responses: seq<string>)

  /** Python's `[tag] * n`. */
  function Repeat(tag: string, n: nat): (r: seq<string>)
    ensures |r| == n
    ensures forall k :: 0 <= k < n ==> r[k] == tag
  {
    seq(n, _ => tag)
  }

  /** Sum of the number of patterns over all intents. */
  function PatternCount(intents: seq<Intent>): (r: nat)
  {
    if intents == [] then 0
    else PatternCount(intents[..|intents| - 1]) + |intents[|intents| - 1].patterns|
  }

  /** The `patterns` training list: every pattern of every intent, intent by intent, in order. */
  function TrainingPatterns(intents: seq<Intent>): (r: seq<string>)
    ensures |r| == PatternCount(intents)
  {
    if intents == [] then []
    else TrainingPatterns(intents[..|intents| - 1]) + intents[|intents| - 1].patterns
  }

  /** The `tags` training list: each intent's tag, once per pattern of that intent. */
  function TrainingTags(intents: seq<Intent>): (r: seq<string>)
    ensures |r| == PatternCount(intents)
  {
    if intents == [] then []
    else
      var last := intents[|intents| - 1];
      TrainingTags(intents[..|intents| - 1]) + Repeat(last.tag, |last.patterns|)
  }

  /** The flattening loop: extends `tags` and `patterns` once per intent. */
  method FlattenTrainingData(intents: seq<Intent>) returns (tags: seq<string>, patterns: seq<string>)
    ensures |tags| == |patterns| == PatternCount(intents)
    ensures patterns == TrainingPatterns(intents)
    ensures tags == TrainingTags(intents)
  {
    tags, patterns := [], [];
    for i := 0 to |intents|
      invariant patterns == TrainingPatterns(intents[..i])
      invariant tags == TrainingTags(intents[..i])
    {
      assert intents[..i + 1][..i] == intents[..i];
      tags := tags + Repeat(intents[i].tag, |intents[i].patterns|);
      patterns := patterns + intents[i].patterns;
    }
    assert intents[..|intents|] == intents;
  }

  /** The pattern total of a concatenation of intent lists is the sum of the two totals. */
  lemma {:induction false} PatternCountAppend(a: seq<Intent>, b: seq<Intent>)
    ensures PatternCount(a + b) == PatternCount(a) + PatternCount(b)
  {
    if b == [] {
      assert a + b == a;
    } else {
      var ab, init := a + b, b[..|b| - 1];
      assert ab[..|ab| - 1] == a + init;
      assert ab[|ab| - 1] == b[|b| - 1];
      PatternCountAppend(a, init);
    }
  }

  /** The patterns of a concatenation of intent lists are the patterns of the first list, then of the second. */
  lemma {:induction false} TrainingPatternsAppend(a: seq<Intent>, b: seq<Intent>)
    ensures TrainingPatterns(a + b) == TrainingPatterns(a) + TrainingPatterns(b)
  {
    if b == [] {
      assert a + b == a;
    } else {
      var ab, init := a + b, b[..|b| - 1];
      assert ab[..|ab| - 1] == a + init;
      assert ab[|ab| - 1] == b[|b| - 1];
      TrainingPatternsAppend(a, init);
    }
  }

  /** The tags of a concatenation of intent lists are the tags of the first list, then of the second. */
  lemma {:induction false} TrainingTagsAppend(a: seq<Intent>, b: seq<Intent>)
    ensures TrainingTags(a + b) == TrainingTags(a) + TrainingTags(b)
  {
    if b == [] {
      assert a + b == a;
    } else {
      var ab, init := a + b, b[..|b| - 1];
      assert ab[..|ab| - 1] == a + init;
      assert ab[|ab| - 1] == b[|b| - 1];
      TrainingTagsAppend(a, init);
    }
  }

  /** An intent without patterns contributes nothing to either training list, wherever it stands. */
  lemma PatternlessIntentIgnored(a: seq<Intent>, x: Intent, b: seq<Intent>)
    requires x.patterns == []
    ensures TrainingPatterns(a + [x] + b) == TrainingPatterns(a + b)
    ensures TrainingTags(a + [x] + b) == TrainingTags(a + b)
  {
    assert [x][..0] == [];
    assert TrainingPatterns([x]) == [] && TrainingTags([x]) == [];
    TrainingPatternsAppend(a + [x], b);
    TrainingPatternsAppend(a, [x]);
    TrainingPatternsAppend(a, b);
    TrainingTagsAppend(a + [x], b);
    TrainingTagsAppend(a, [x]);
    TrainingTagsAppend(a, b);
  }

  /** The index of the intent that the k-th training pair came from. */
  function Owner(intents: seq<Intent>, k: nat): (j: nat)
    requires k < PatternCount(intents)
    ensures j < |intents|
    ensures PatternCount(intents[..j]) <= k < PatternCount(intents[..j]) + |intents[j].patterns|
  {
    var n := |intents| - 1;
    if k >= PatternCount(intents[..n]) then
      n
    else
      var j := Owner(intents[..n], k);
      assert intents[..n][..j] == intents[..j];
      j
  }

  /** Pattern m of intent j sits at offset PatternCount(intents[..j]) + m, paired with intent j's tag. */
  lemma {:induction false} TrainingPairAt(intents: seq<Intent>, j: nat, m: nat)
    requires j < |intents| && m < |intents[j].patterns|
    ensures PatternCount(intents[..j]) + m < PatternCount(intents)
    ensures TrainingPatterns(intents)[PatternCount(intents[..j]) + m] == intents[j].patterns[m]
    ensures TrainingTags(intents)[PatternCount(intents[..j]) + m] == intents[j].tag
  {
    var n := |intents| - 1;
    var init := intents[..n];
    if j == n {
      assert intents[..j] == init;
    } else {
      TrainingPairAt(init, j, m);
      assert init[..j] == intents[..j];
    }
  }

  /** Every training pair: tags[k] is the tag of the intent whose pattern is patterns[k]. */
  lemma TagOfTrainingPattern(intents: seq<Intent>, k: nat)
    requires k < PatternCount(intents)
    ensures var j := Owner(intents, k);
      TrainingPatterns(intents)[k] == intents[j].patterns[k - PatternCount(intents[..j])] &&
      TrainingTags(intents)[k] == intents[j].tag
  {
    var j := Owner(intents, k);
    TrainingPairAt(intents, j, k - PatternCount(intents[..j]));
  }

  /** Pattern blocks are laid out in intent order: intent i's block ends at or before intent j's begins. */
  lemma {:induction false} PrefixMono(intents: seq<Intent>, i: nat, j: nat)
    requires i <= j <= |intents|
    ensures PatternCount(intents[..i]) + (if i < j then |intents[i].patterns| else 0) <= PatternCount(intents[..j])
    decreases j - i
  {
    if i < j {
      assert intents[..i + 1][..i] == intents[..i];
      PrefixMono(intents, i + 1, j);
    }
  }

  /** The owning intent is unique: any intent whose pattern block contains position k is `Owner(intents, k)`. */
  lemma OwnerUnique(intents: seq<Intent>, k: nat, j: nat)
    requires j < |intents|
    requires PatternCount(intents[..j]) <= k < PatternCount(intents[..j]) + |intents[j].patterns|
    ensures k < PatternCount(intents) && Owner(intents, k) == j
  {
    PrefixMono(intents, j, |intents|);
    assert intents[..|intents|] == intents;
    var o := Owner(intents, k);
    if o < j {
      PrefixMono(intents, o, j);
    } else if j < o {
      PrefixMono(intents, j, o);
    }
  }

  /** The total counts every intent's patterns: no intent has more patterns than the whole corpus. */
  lemma PatternCountBounds(intents: seq<Intent>, j: nat)
    requires j < |intents|
    ensures |intents[j].patterns| <= PatternCount(intents)
  {
    PrefixMono(intents, j, |intents|);
    assert intents[..|intents|] == intents;
  }

  /** The training lists are empty exactly when no intent has a pattern. */
  lemma {:induction false} PatternCountZero(intents: seq<Intent>)
    ensures PatternCount(intents) == 0 <==> forall j :: 0 <= j < |intents| ==> intents[j].patterns == []
  {
    if intents != [] {
      var n := |intents| - 1;
      PatternCountZero(intents[..n]);
      assert forall j :: 0 <= j < n ==> intents[..n][j] == intents[j];
    }
  }
}

/**
 * The deterministic part of `classify_image_with_ollama`: normalising the model's reply
 * and matching it against the caller's categories, with the fallback label for a
 * missing file, a failed inference call and a reply that matches nothing.
 */
module Classifier {
  import opened Text

  /** What the inference call produced: it raised (network, model or response-shape error) or it replied with text. */
  datatype Inference = Fail | Reply(content: string)

  /** The label used whenever nothing better can be said. */
  const Fallback: string := "other"

  /** `DEFAULT_CATEGORIES`, in the order the program offers them. */
  const DefaultCategories: seq<string> := ["birthdays", "vacations", "family_photos", "child_photos", "other", "nudity"]

  /**
   * `reply.strip().lower().replace('_', ' ')`: the stripped reply, position by position,
   * with each underscore a space and each other character lower-cased; so never longer
   * than the reply, with no underscore and no upper-case letter left.
   */
  function NormaliseReply(reply: string): (r: string)
    ensures |r| == |Strip(reply)| <= |reply|
    ensures forall k :: 0 <= k < |r| ==> r[k] == (if Strip(reply)[k] == '_' then ' ' else LowerChar(Strip(reply)[k]))
    ensures '_' !in r
    ensures forall i :: 0 <= i < |r| ==> !IsUpper(r[i])
  {
    ReplaceChar(Lower(Strip(reply)), '_', ' ')
  }

  /**
   * `cat.replace('_', ' ')`: categories are not lower-cased, so only underscores change,
   * each into a space.
   */
  function NormaliseLabel(category: string): (r: string)
    ensures |r| == |category|
    ensures '_' !in r
    ensures forall i :: 0 <= i < |r| && category[i] == '_' ==> r[i] == ' '
    ensures forall i :: 0 <= i < |r| && category[i] != '_' ==> r[i] == category[i]
  {
    ReplaceChar(category, '_', ' ')
  }

  /** The fuzzy test against an already normalised reply: either text occurs in the other. */
  predicate LabelMatches(category: string, predicted: string)
  {
    IsSubstring(NormaliseLabel(category), predicted) || IsSubstring(predicted, NormaliseLabel(category))
  }

  /**
   * The fuzzy test means an occurrence: the category's label sits somewhere in the reply,
   * or the reply sits somewhere in the label.
   */
  lemma {:induction false} LabelMatchesMeans(category: string, predicted: string)
    ensures LabelMatches(category, predicted) <==>
      (exists i :: OccursAt(NormaliseLabel(category), predicted, i)) || (exists i :: OccursAt(predicted, NormaliseLabel(category), i))
  {
    SubstringMeans(NormaliseLabel(category), predicted);
    SubstringMeans(predicted, NormaliseLabel(category));
  }

  /** `k` is the position of the first category, in caller order, that matches. */
  predicate IsFirstMatch(categories: seq<string>, predicted: string, k: int)
  {
    0 <= k < |categories| && LabelMatches(categories[k], predicted) &&
    forall j :: 0 <= j < k ==> !LabelMatches(categories[j], predicted)
  }

  predicate NoMatch(categories: seq<string>, predicted: string)
  {
    forall k :: 0 <= k < |categories| ==> !LabelMatches(categories[k], predicted)
  }

  /** The index of the first category at or after `from` that matches; `|categories|` if none does. */
  function FirstMatchingLabel(categories: seq<string>, predicted: string, from: nat): (k: nat)
    requires from <= |categories|
    ensures from <= k <= |categories|
    ensures k < |categories| ==> LabelMatches(categories[k], predicted)
    ensures forall j :: from <= j < k ==> !LabelMatches(categories[j], predicted)
    decreases |categories| - from
  {
    if from == |categories| then from
    else if LabelMatches(categories[from], predicted) then from
    else FirstMatchingLabel(categories, predicted, from + 1)
  }

  /** The label chosen for a normalised reply: the first matching category in caller order, else the fallback. */
  function MatchLabel(predicted: string, categories: seq<string>): (chosen: string)
    ensures chosen == Fallback || chosen in categories
    ensures forall k :: IsFirstMatch(categories, predicted, k) ==> chosen == categories[k]
    ensures NoMatch(categories, predicted) ==> chosen == Fallback
  {
    var k := FirstMatchingLabel(categories, predicted, 0);
    assert forall i :: IsFirstMatch(categories, predicted, i) ==> i == k;
    if k < |categories| then categories[k] else Fallback
  }

  /**
   * `classify_image_with_ollama` with the inference call as an input: a file that does
   * not exist is never sent to the model and gets the fallback, so does a failed call;
   * otherwise the reply is matched.
   */
  function ClassifyImage(pathExists: bool, inference: Inference, categories: seq<string>): (chosen: string)
    ensures chosen == Fallback || chosen in categories
    ensures !pathExists || inference.Fail? ==> chosen == Fallback
    ensures pathExists && inference.Reply? ==> chosen == MatchLabel(NormaliseReply(inference.content), categories)
  {
    if !pathExists then Fallback
    else match inference
      case Fail => Fallback
      case Reply(content) => MatchLabel(NormaliseReply(content), categories)
  }

  /** When the categories include the fallback, every label returned is one of them. */
  lemma {:induction false} ClassifyWithinCategories(pathExists: bool, inference: Inference, categories: seq<string>)
    requires Fallback in categories
    ensures ClassifyImage(pathExists, inference, categories) in categories
  {
  }

  /** A missing file never reaches the model: the outcome of the call cannot matter. */
  lemma {:induction false} MissingFileIgnoresInference(first: Inference, second: Inference, categories: seq<string>)
    ensures ClassifyImage(false, first, categories) == ClassifyImage(false, second, categories) == Fallback
  {
  }

  /** An empty or blank reply is contained in every label, so it picks the first category. */
  lemma {:induction false} BlankReplyPicksFirst(reply: string, categories: seq<string>)
    requires AllSpace(reply) && |categories| > 0
    ensures MatchLabel(NormaliseReply(reply), categories) == categories[0]
  {
    var predicted := NormaliseReply(reply);
    assert predicted == [];
    assert StartsWith(NormaliseLabel(categories[0]), predicted);
    assert IsFirstMatch(categories, predicted, 0);
  }

  /** A reply matching two categories resolves to whichever the caller listed first. */
  lemma {:induction false} AmbiguityFavoursFirst(reply: string, a: string, b: string)
    requires LabelMatches(a, NormaliseReply(reply)) && LabelMatches(b, NormaliseReply(reply))
    ensures MatchLabel(NormaliseReply(reply), [a, b]) == a
    ensures MatchLabel(NormaliseReply(reply), [b, a]) == b
  {
  }

  /**
   * A reply with no white space at its ends, no upper-case letter and no underscore is
   * left as it is, and as a category it is its own label, so it matches itself.
   */
  lemma {:induction false} PlainReply(reply: string)
    requires reply != [] && !IsSpace(reply[0]) && !IsSpace(reply[|reply| - 1])
    requires forall c :: c in reply ==> !IsUpper(c) && c != '_'
    ensures NormaliseReply(reply) == reply && NormaliseLabel(reply) == reply
    ensures LabelMatches(reply, NormaliseReply(reply))
  {
    StripKeeps(reply);
    assert Lower(reply) == reply;
    assert ReplaceChar(reply, '_', ' ') == reply;
    assert StartsWith(reply, reply);
  }

  /**
   * A reply that is exactly a category's name, when that name has no white space at its
   * ends and no upper-case letter, normalises to the category's label and so matches it:
   * the reply "family_photos" matches the category `family_photos`.
   */
  lemma {:induction false} CategoryNameMatches(category: string)
    requires category != [] && !IsSpace(category[0]) && !IsSpace(category[|category| - 1])
    requires forall c :: c in category ==> !IsUpper(c)
    ensures NormaliseReply(category) == NormaliseLabel(category)
    ensures LabelMatches(category, NormaliseReply(category))
  {
    StripKeeps(category);
    forall k | 0 <= k < |category|
      ensures NormaliseReply(category)[k] == NormaliseLabel(category)[k]
    {
      assert !IsUpper(category[k]);
    }
    assert StartsWith(NormaliseLabel(category), NormaliseLabel(category));
  }

  /** A reply of exactly "birthdays" with the default categories yields "birthdays"; a failed call yields "other". */
  lemma {:induction false} DefaultCategoryExamples()
    ensures ClassifyImage(true, Reply("birthdays"), DefaultCategories) == "birthdays"
    ensures ClassifyImage(true, Fail, DefaultCategories) == "other"
  {
    PlainReply("birthdays");
  }
}

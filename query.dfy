/**
 * One similarity query: the request body sent to the sentence-similarity
 * model and the result object built from its answer. The HTTP round trip
 * itself is not modelled; the scores it returns are a parameter.
 */
module Query {
  import opened Wrappers
  import opened Strings
  import opened Labels
  import opened JsObject

  /** The `inputs` of the request body. */
  datatype Payload = Payload(sourceSentence: string, sentences: seq<string>)

  /** Each target with its list number and brackets stripped, in target order. */
  function StripAll(targets: seq<string>): (r: seq<string>)
    ensures |r| == |targets|
    ensures forall i :: 0 <= i < |targets| ==> r[i] == Strip(targets[i])
  {
    seq(|targets|, i requires 0 <= i < |targets| => Strip(targets[i]))
  }

  /** The request body for `source` against `targets`. */
  function BuildPayload(source: string, targets: seq<string>): (r: Payload)
    ensures r.sourceSentence == source
    ensures |r.sentences| == |targets|
    ensures forall i :: 0 <= i < |targets| ==> r.sentences[i] == Strip(targets[i])
  {
    Payload(source, StripAll(targets))
  }

  /**
   * The payload carries the source unchanged and one sentence per target,
   * position for position, so that the i-th score answers the i-th target;
   * each sentence is a bracket-free subsequence of its target.
   */
  lemma PayloadAligned(source: string, targets: seq<string>)
    ensures BuildPayload(source, targets).sourceSentence == source
    ensures |BuildPayload(source, targets).sentences| == |targets|
    ensures forall i :: 0 <= i < |targets| ==>
      var t := BuildPayload(source, targets).sentences[i];
      && IsSubsequence(t, targets[i])
      && |t| <= |targets[i]|
      && (forall c :: c in t ==> !IsBracket(c))
  {
  }

  /** The result of a query: the source and one property per target. */
  datatype QueryResult<V> = QueryResult(source: string, results: Obj<Option<V>>)

  /**
   * `targets.map((t, i) => [t, results[i]])`: reading past the end of the
   * answer gives `undefined`, written `None`.
   */
  function ScoredEntries<V>(targets: seq<string>, scores: seq<V>): (r: seq<(string, Option<V>)>)
    ensures KeysOf(r) == targets
  {
    seq(|targets|, i requires 0 <= i < |targets| => (targets[i], if i < |scores| then Some(scores[i]) else None))
  }

  /** The object `query` resolves to, given the scores the model answered with. */
  function RunQuery<V>(source: string, targets: seq<string>, scores: seq<V>): (r: QueryResult<V>)
    ensures r.source == source
    ensures Valid(r.results)
    ensures forall k :: k in r.results.props <==> k in targets
  {
    FromEntriesKeys(ScoredEntries(targets, scores));
    QueryResult(source, FromEntries(ScoredEntries(targets, scores)))
  }

  /**
   * The results object has exactly the targets as properties. A target that
   * occurs more than once holds the score of its last occurrence, and a
   * target's score is missing exactly when that position lies past the end
   * of the answer.
   */
  lemma RunQueryResults<V>(source: string, targets: seq<string>, scores: seq<V>)
    ensures RunQuery(source, targets, scores).source == source
    ensures Valid(RunQuery(source, targets, scores).results)
    ensures forall k :: k in RunQuery(source, targets, scores).results.props <==> k in targets
    ensures forall k :: k in targets ==>
      var j := LastIndex(targets, k);
      var v := RunQuery(source, targets, scores).results.props[k];
      && (v.Some? <==> j < |scores|)
      && (v.Some? ==> v.value == scores[j])
  {
    var es := ScoredEntries(targets, scores);
    FromEntriesKeys(es);
    FromEntriesValues(es);
  }

  /**
   * With pairwise different targets the results object records one property
   * per target, in target order, holding the score at the same position.
   */
  lemma RunQueryDistinct<V>(source: string, targets: seq<string>, scores: seq<V>)
    requires forall i, j :: 0 <= i < j < |targets| ==> targets[i] != targets[j]
    ensures RunQuery(source, targets, scores).results.keys == targets
    ensures forall i :: 0 <= i < |targets| && i < |scores| ==>
      && targets[i] in RunQuery(source, targets, scores).results.props
      && RunQuery(source, targets, scores).results.props[targets[i]] == Some(scores[i])
  {
    var es := ScoredEntries(targets, scores);
    FromEntriesDistinct(es);
    RunQueryResults(source, targets, scores);
    forall i | 0 <= i < |targets| && i < |scores|
      ensures targets[i] in RunQuery(source, targets, scores).results.props
      ensures RunQuery(source, targets, scores).results.props[targets[i]] == Some(scores[i])
    {
      assert targets[i] in targets;
      LastIndexDistinct(targets, i);
    }
  }

  /**
   * For pairwise different targets, none of them an array index, with a
   * score for each, `Object.entries` gives back the entries the object was
   * built from: target order, each target with its own score.
   */
  lemma RunQueryEntries<V>(source: string, targets: seq<string>, scores: seq<V>)
    requires forall i, j :: 0 <= i < j < |targets| ==> targets[i] != targets[j]
    requires forall i :: 0 <= i < |targets| ==> !IsArrayIndex(targets[i])
    requires |targets| <= |scores|
    ensures Valid(RunQuery(source, targets, scores).results)
    ensures Entries(RunQuery(source, targets, scores).results) == ScoredEntries(targets, scores)
  {
    RunQueryResults(source, targets, scores);
    RunQueryDistinct(source, targets, scores);
    OwnKeysNoIndex(targets);
  }
}

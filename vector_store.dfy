/**
 * The record assembly around the question vector store: the embedding function's
 * fallbacks, the one-shot recreation flag, the ids/documents/metadatas handed to the
 * collection, the conversion of query results and the indexing of one questions file.
 * The embedding service, `json.dumps`/`json.loads` and the database are parameters or
 * client state; similarity ranking itself is not modelled.
 */
module VectorStore {
  import opened Wrappers
  import opened Strings
  import opened JsonValues

  // ---------------------------------------------------------------------------
  // Embedding function

  /** Width of the zero vector used as a fallback. */
  const EmbeddingWidth: nat := 768

  /** `[0.0] * 768`. */
  function ZeroVector(): (r: seq<real>)
    ensures |r| == EmbeddingWidth && forall i :: 0 <= i < |r| ==> r[i] == 0.0
  {
    seq(EmbeddingWidth, _ => 0.0)
  }

  /** What one embedding request gives back. */
  datatype EmbedReply =
    | Embedded(vector: seq<real>)  // a dict with an "embedding" entry
    | Unexpected                   // any other response shape
    | Raised                       // the request threw

  /** Texts that are blank after stripping are replaced before being embedded. */
  function Prepared(text: string): (r: string)
    ensures Strip(text) != "" ==> r == text
    ensures Strip(text) == "" ==> r == "Empty text"
  {
    if Strip(text) != "" then text else "Empty text"
  }

  /** No text sent to the embedding service is blank. */
  lemma PreparedIsNeverBlank(text: string)
    ensures Strip(Prepared(text)) != ""
  {
    if Strip(text) == "" {
      var e := "Empty text";
      assert e[0] !in Whitespace && e[|e| - 1] !in Whitespace;
      assert StripLeft(e, Whitespace) == e;
      assert StripRight(e, Whitespace) == e;
    }
  }

  /** The vector kept for one reply that did not throw. */
  function VectorOf(reply: EmbedReply): (r: seq<real>)
    requires !reply.Raised?
    ensures reply.Unexpected? ==> r == ZeroVector()
    ensures reply.Embedded? ==> r == reply.vector
  {
    if reply.Embedded? then reply.vector else ZeroVector()
  }

  /** The texts sent to the service: `[text if text.strip() else "Empty text" for text in texts]`. */
  function PreparedTexts(texts: seq<string>): (r: seq<string>)
    ensures |r| == |texts|
    decreases |texts|
  {
    if texts == [] then []
    else PreparedTexts(texts[..|texts| - 1]) + [Prepared(texts[|texts| - 1])]
  }

  /** Each text sent is the prepared form of the text at the same position. */
  lemma {:induction false} PreparedTextsAt(texts: seq<string>, i: nat)
    requires i < |texts|
    ensures PreparedTexts(texts)[i] == Prepared(texts[i])
    ensures Strip(PreparedTexts(texts)[i]) != ""
    decreases |texts|
  {
    if i < |texts| - 1 {
      PreparedTextsAt(texts[..|texts| - 1], i);
    }
    PreparedIsNeverBlank(texts[i]);
  }

  /** Some request of the batch throws. */
  predicate SomeRequestRaises(requests: seq<string>, embed: string -> EmbedReply) {
    exists i :: 0 <= i < |requests| && embed(requests[i]).Raised?
  }

  /**
   * `GoogleEmbeddingFunction.__call__`: one vector per text, in order, for the prepared
   * texts; a request that throws replaces the whole answer by one zero vector per text.
   */
  method Embed(texts: seq<string>, embed: string -> EmbedReply) returns (vectors: seq<seq<real>>)
    ensures |vectors| == |texts|
    ensures SomeRequestRaises(PreparedTexts(texts), embed) ==>
      forall i :: 0 <= i < |texts| ==> vectors[i] == ZeroVector()
    ensures !SomeRequestRaises(PreparedTexts(texts), embed) ==>
      forall i :: 0 <= i < |texts| ==> vectors[i] == VectorOf(embed(PreparedTexts(texts)[i]))
  {
    var requests := PreparedTexts(texts);
    vectors := [];
    var k := 0;
    while k < |requests|
      invariant 0 <= k <= |requests|
      invariant |vectors| == k
      invariant forall i :: 0 <= i < k ==> !embed(requests[i]).Raised?
      invariant forall i :: 0 <= i < k ==> vectors[i] == VectorOf(embed(requests[i]))
    {
      var reply := embed(requests[k]);
      if reply.Raised? {
        return ZeroVectors(|texts|);
      }
      vectors := vectors + [VectorOf(reply)];
      k := k + 1;
    }
  }

  /** One zero vector per text. */
  function ZeroVectors(n: nat): (r: seq<seq<real>>)
    ensures |r| == n && forall i :: 0 <= i < n ==> r[i] == ZeroVector()
  {
    seq(n, _ => ZeroVector())
  }

  // ---------------------------------------------------------------------------
  // Opening the collection and the one-shot recreation flag

  /** How the constructor obtained its collection. */
  datatype Opened = Created | Reused

  /** The class attribute `QuestionVectorStore._force_recreate`, shared by every instance. */
  class StoreClass {
    var forceRecreate: bool

    constructor()
      ensures !forceRecreate
    {
      forceRecreate := false;
    }
  }

  /** The persistent client, reduced to whether the questions collection exists. */
  class ChromaClient {
    var hasCollection: bool

    constructor(hasCollection: bool)
      ensures this.hasCollection == hasCollection
    {
      this.hasCollection := hasCollection;
    }
  }

  /** Message of the error `create_collection` raises for a name already in use. */
  const AlreadyExists := "Collection general_knowledge_questions already exists"

  /** The state after one constructor run: outcome, flag, collection present. */
  datatype OpenState = OpenState(outcome: Result<Opened, string>, forceRecreate: bool, hasCollection: bool)

  /**
   * One constructor run on the flag and the client. `deleteFault` stands for
   * `delete_collection` failing on an existing collection; deleting a missing one always fails.
   */
  function OpenStep(forceRecreate: bool, hasCollection: bool, deleteFault: bool): (s: OpenState)
    ensures s.outcome.Success? ==> s.hasCollection
    ensures s.forceRecreate ==> forceRecreate
    ensures forceRecreate ==> (!s.forceRecreate <==> hasCollection && !deleteFault)
    ensures s.outcome.Failure? <==> forceRecreate && hasCollection && deleteFault
    ensures !forceRecreate ==> s.outcome == Success(if hasCollection then Reused else Created)
  {
    if forceRecreate then
      var deleted := hasCollection && !deleteFault;
      var flag := if deleted then false else forceRecreate;
      var present := if deleted then false else hasCollection;
      if present then OpenState(Failure(AlreadyExists), flag, present)
      else OpenState(Success(Created), flag, true)
    else if hasCollection then OpenState(Success(Reused), false, true)
    else OpenState(Success(Created), false, true)
  }

  /** `QuestionVectorStore.__init__`, from the collection handling on. */
  method OpenStore(cls: StoreClass, client: ChromaClient, deleteFault: bool) returns (r: Result<Opened, string>)
    modifies cls, client
    ensures var s := OpenStep(old(cls.forceRecreate), old(client.hasCollection), deleteFault);
      r == s.outcome && cls.forceRecreate == s.forceRecreate && client.hasCollection == s.hasCollection
  {
    if cls.forceRecreate {
      if client.hasCollection && !deleteFault {
        client.hasCollection := false;
        cls.forceRecreate := false;
      }
      if client.hasCollection {
        r := Failure(AlreadyExists);
        return;
      }
      client.hasCollection := true;
      r := Success(Created);
    } else if client.hasCollection {
      r := Success(Reused);
    } else {
      client.hasCollection := true;
      r := Success(Created);
    }
  }

  /**
   * The flag is one-shot: a forced open that succeeds recreates the collection and clears
   * the flag, so the next instance reuses that collection whatever happens to deletion.
   */
  lemma ForcedOpenIsOneShot(hasCollection: bool, deleteFault: bool, nextFault: bool)
    requires OpenStep(true, hasCollection, deleteFault).outcome.Success?
    ensures OpenStep(true, hasCollection, deleteFault).outcome == Success(Created)
    ensures var s := OpenStep(true, hasCollection, deleteFault);
      s.forceRecreate <==> !hasCollection
    ensures var s := OpenStep(true, hasCollection, deleteFault);
      !s.forceRecreate ==> OpenStep(s.forceRecreate, s.hasCollection, nextFault).outcome == Success(Reused)
  {
  }

  /** When there was nothing to delete the flag stays set, and the next instance recreates again. */
  lemma FlagSurvivesMissingCollection(nextFault: bool)
    ensures var s := OpenStep(true, false, nextFault);
      s.forceRecreate && s.hasCollection && s.outcome == Success(Created)
    ensures var s := OpenStep(true, false, nextFault);
      OpenStep(s.forceRecreate, s.hasCollection, true).outcome.Failure?
  {
  }

  // ---------------------------------------------------------------------------
  // add_questions

  /** The metadata stored beside each question. */
  datatype Metadata = Metadata(sourceId: string, questionIndex: nat, fullStructure: string)

  /** The three parallel lists handed to `collection.add`. */
  datatype Batch = Batch(ids: seq<string>, documents: seq<Json>, metadatas: seq<Metadata>)

  /** `f"{source_id}_{idx}"`. */
  function QuestionId(sourceId: string, idx: nat): (r: string)
    ensures StartsWith(r, sourceId + "_")
  {
    sourceId + "_" + NatToString(idx)
  }

  /** Two indexes give the same id only if they are equal. */
  lemma QuestionIdInjective(sourceId: string, i: nat, j: nat)
    requires QuestionId(sourceId, i) == QuestionId(sourceId, j)
    ensures i == j
  {
    var p := sourceId + "_";
    assert NatToString(i) == QuestionId(sourceId, i)[|p|..];
    assert NatToString(j) == QuestionId(sourceId, j)[|p|..];
    NatToStringInjective(i, j);
  }

  /** `question.get('question', '')`. */
  function Document(question: map<string, Json>): (r: Json)
    ensures "question" in question ==> r == question["question"]
    ensures "question" !in question ==> r == JStr("")
  {
    Get(question, "question", JStr(""))
  }

  /** `value[:50]` is defined: strings and lists can be sliced, other values raise. */
  predicate Sliceable(j: Json) {
    j.JStr? || j.JArr?
  }

  /** The batch `add_questions` builds for a list of questions. */
  function QuestionBatch(questions: seq<map<string, Json>>, sourceId: string, dumps: Json -> string): (b: Batch)
    ensures |b.ids| == |b.documents| == |b.metadatas| == |questions|
  {
    Batch(
      seq(|questions|, i requires 0 <= i < |questions| => QuestionId(sourceId, i)),
      seq(|questions|, i requires 0 <= i < |questions| => Document(questions[i])),
      seq(|questions|, i requires 0 <= i < |questions| => Metadata(sourceId, i, dumps(JObj(questions[i])))))
  }

  /** The ids of one batch are pairwise distinct and each carries its position. */
  lemma BatchIdsAreDistinct(questions: seq<map<string, Json>>, sourceId: string, dumps: Json -> string)
    ensures var b := QuestionBatch(questions, sourceId, dumps);
      forall i, j :: 0 <= i < j < |questions| ==> b.ids[i] != b.ids[j]
    ensures var b := QuestionBatch(questions, sourceId, dumps);
      forall i :: 0 <= i < |questions| ==> b.ids[i] == sourceId + "_" + NatToString(i)
  {
    var b := QuestionBatch(questions, sourceId, dumps);
    forall i, j | 0 <= i < j < |questions| ensures b.ids[i] != b.ids[j] {
      if b.ids[i] == b.ids[j] {
        QuestionIdInjective(sourceId, i, j);
      }
    }
  }

  /** Each metadata entry names the source, the question's index and its serialised form. */
  lemma BatchMetadataDescribesQuestion(questions: seq<map<string, Json>>, sourceId: string, dumps: Json -> string, i: nat)
    requires i < |questions|
    ensures var m := QuestionBatch(questions, sourceId, dumps).metadatas[i];
      m.sourceId == sourceId && m.questionIndex == i && m.fullStructure == dumps(JObj(questions[i]))
    ensures "question" !in questions[i] ==> QuestionBatch(questions, sourceId, dumps).documents[i] == JStr("")
  {
  }

  /** Every document can be sliced for the progress message. */
  predicate DocumentsSliceable(questions: seq<map<string, Json>>) {
    forall i :: 0 <= i < |questions| ==> Sliceable(Document(questions[i]))
  }

  /**
   * `add_questions`, up to the `collection.add` call: the batch it passes, or the error
   * raised by the progress message when a document cannot be sliced (nothing is added then).
   */
  method AddQuestions(questions: seq<map<string, Json>>, sourceId: string, dumps: Json -> string)
    returns (r: Result<Batch, string>)
    ensures r.Success? <==> DocumentsSliceable(questions)
    ensures r.Success? ==> r.value == QuestionBatch(questions, sourceId, dumps)
  {
    var ids: seq<string> := [];
    var documents: seq<Json> := [];
    var metadatas: seq<Metadata> := [];
    var idx := 0;
    while idx < |questions|
      invariant 0 <= idx <= |questions|
      invariant Batch(ids, documents, metadatas) == QuestionBatch(questions[..idx], sourceId, dumps)
      invariant DocumentsSliceable(questions[..idx])
    {
      var question := questions[idx];
      QuestionBatchExtend(questions, idx, sourceId, dumps);
      SliceableExtend(questions, idx);
      ids := ids + [QuestionId(sourceId, idx)];
      metadatas := metadatas + [Metadata(sourceId, idx, dumps(JObj(question)))];
      var document := Get(question, "question", JStr(""));
      documents := documents + [document];
      if !Sliceable(document) {
        return Failure("TypeError: document is not subscriptable");
      }
      idx := idx + 1;
    }
    assert questions[..idx] == questions;
    r := Success(Batch(ids, documents, metadatas));
  }

  /** The batch for one more question extends the batch so far by that question's entries. */
  lemma QuestionBatchExtend(questions: seq<map<string, Json>>, idx: nat, sourceId: string, dumps: Json -> string)
    requires idx < |questions|
    ensures var b := QuestionBatch(questions[..idx], sourceId, dumps);
      QuestionBatch(questions[..idx + 1], sourceId, dumps) == Batch(
        b.ids + [QuestionId(sourceId, idx)],
        b.documents + [Document(questions[idx])],
        b.metadatas + [Metadata(sourceId, idx, dumps(JObj(questions[idx])))])
  {
    var pre, post := questions[..idx], questions[..idx + 1];
    var b, c := QuestionBatch(pre, sourceId, dumps), QuestionBatch(post, sourceId, dumps);
    assert forall i :: 0 <= i < idx ==> post[i] == pre[i];
    assert c.ids == b.ids + [QuestionId(sourceId, idx)];
    assert c.documents == b.documents + [Document(questions[idx])];
    assert c.metadatas == b.metadatas + [Metadata(sourceId, idx, dumps(JObj(questions[idx])))];
  }

  /** The documents of one more question are sliceable iff those so far and the new one are. */
  lemma SliceableExtend(questions: seq<map<string, Json>>, idx: nat)
    requires idx < |questions|
    ensures DocumentsSliceable(questions[..idx + 1]) <==>
      DocumentsSliceable(questions[..idx]) && Sliceable(Document(questions[idx]))
  {
    var pre, post := questions[..idx], questions[..idx + 1];
    assert forall i :: 0 <= i < idx ==> post[i] == pre[i];
  }

  // ---------------------------------------------------------------------------
  // search_similar_questions

  /** The record produced for result `idx`, or the error the loop raises on it. */
  function SearchRecord(metadata: Metadata, distances: seq<real>, idx: nat, loads: string -> Option<Json>)
    : (r: Result<map<string, Json>, string>)
    ensures r.Success? ==> idx < |distances| && "similarity_score" in r.value && r.value["similarity_score"] == JReal(distances[idx])
    ensures r.Success? ==> loads(metadata.fullStructure).Some? && loads(metadata.fullStructure).value.JObj?
    ensures r.Success? ==> r.value == loads(metadata.fullStructure).value.fields["similarity_score" := JReal(distances[idx])]
  {
    match loads(metadata.fullStructure)
    case None => Failure("JSONDecodeError")
    case Some(data) =>
      if !data.JObj? then Failure("TypeError: item assignment on a non-dict")
      else if idx >= |distances| then Failure("IndexError: list index out of range")
      else
        var record := data.fields["similarity_score" := JReal(distances[idx])];
        if "question" !in record then Failure("KeyError: 'question'")
        else if !Sliceable(record["question"]) then Failure("TypeError: question is not subscriptable")
        else Success(record)
  }

  /**
   * `search_similar_questions`, from the query results on: one record per returned metadata,
   * in order, each the decoded question with its distance added as `similarity_score`.
   */
  method SearchSimilar(metadatas: seq<Metadata>, distances: seq<real>, loads: string -> Option<Json>)
    returns (r: Result<seq<map<string, Json>>, string>)
    ensures r.Success? <==> forall i :: 0 <= i < |metadatas| ==> SearchRecord(metadatas[i], distances, i, loads).Success?
    ensures r.Success? ==> |r.value| == |metadatas|
    ensures r.Success? ==> forall i :: 0 <= i < |metadatas| ==> r.value[i] == SearchRecord(metadatas[i], distances, i, loads).value
  {
    var questions: seq<map<string, Json>> := [];
    var idx := 0;
    while idx < |metadatas|
      invariant 0 <= idx <= |metadatas|
      invariant |questions| == idx
      invariant forall i :: 0 <= i < idx ==> SearchRecord(metadatas[i], distances, i, loads).Success?
      invariant forall i :: 0 <= i < idx ==> questions[i] == SearchRecord(metadatas[i], distances, i, loads).value
    {
      var record := SearchRecord(metadatas[idx], distances, idx, loads);
      if record.Failure? {
        return Failure(record.error);
      }
      questions := questions + [record.value];
      idx := idx + 1;
    }
    r := Success(questions);
  }

  /**
   * Storing then finding: when `loads` undoes `dumps` and each question has a sliceable
   * `question` field, the search over a batch's metadata gives back every stored question,
   * with only its score added.
   */
  lemma SearchReturnsStoredQuestions(questions: seq<map<string, Json>>, sourceId: string, dumps: Json -> string,
                                     loads: string -> Option<Json>, distances: seq<real>, i: nat)
    requires i < |questions| && i < |distances|
    requires loads(dumps(JObj(questions[i]))) == Some(JObj(questions[i]))
    requires "question" in questions[i] && Sliceable(questions[i]["question"])
    ensures var m := QuestionBatch(questions, sourceId, dumps).metadatas[i];
      SearchRecord(m, distances, i, loads) == Success(questions[i]["similarity_score" := JReal(distances[i])])
  {
    var m := QuestionBatch(questions, sourceId, dumps).metadatas[i];
    assert m.fullStructure == dumps(JObj(questions[i]));
    var record := questions[i]["similarity_score" := JReal(distances[i])];
    assert "question" in record && record["question"] == questions[i]["question"];
  }

  /** A result list shorter than the metadata list makes the search raise. */
  lemma MissingDistanceRaises(metadata: Metadata, distances: seq<real>, idx: nat, loads: string -> Option<Json>)
    requires idx >= |distances|
    ensures SearchRecord(metadata, distances, idx, loads).Failure?
  {
  }

  // ---------------------------------------------------------------------------
  // index_questions_file

  /** `os.path.basename`: the text after the last `/`. */
  function Basename(path: string): (r: string)
    ensures '/' !in r
    ensures '/' !in path ==> r == path
  {
    match RFindChar(path, '/')
    case None => path
    case Some(i) => path[i + 1..]
  }

  /**
   * `os.path.splitext(name)[0]`: drop the text from the last `.` on, unless every character
   * before that dot is itself a dot (a leading-dot name has no extension).
   */
  function DropExtension(name: string): (r: string)
    ensures |r| <= |name| && r == name[..|r|]
  {
    match RFindChar(name, '.')
    case None => name
    case Some(d) =>
      if exists j :: 0 <= j < d && name[j] != '.' then name[..d] else name
  }

  /** `os.path.splitext(os.path.basename(filename))[0]`. */
  function SourceId(filename: string): (r: string)
    ensures '/' !in r
  {
    var r := DropExtension(Basename(filename));
    assert forall k :: 0 <= k < |r| ==> r[k] == Basename(filename)[k];
    r
  }

  /** A file `dir/name.ext` with a plain name is indexed under `name`. */
  lemma SourceIdOfQuestionsFile(dir: string, name: string, ext: string)
    requires name != [] && '/' !in name && '.' !in name
    requires '/' !in ext && '.' !in ext
    ensures SourceId(dir + "/" + name + "." + ext) == name
  {
    var base := name + "." + ext;
    assert dir + "/" + name + "." + ext == dir + "/" + base;
    BasenameAfterLastSlash(dir, base);
    DropExtensionOfPlainName(name, ext);
  }

  /** The basename of `dir/base` is `base` when `base` holds no slash. */
  lemma BasenameAfterLastSlash(dir: string, base: string)
    requires '/' !in base
    ensures Basename(dir + "/" + base) == base
  {
    var path := dir + "/" + base;
    var slash := |dir|;
    forall k | slash < k < |path| ensures path[k] != '/' {
      assert path[k] == base[k - slash - 1];
    }
    LastOccurrence(path, '/', slash);
    assert path[slash + 1..] == base;
  }

  /** `name.ext` with dot-free parts and a non-empty name drops `.ext`. */
  lemma DropExtensionOfPlainName(name: string, ext: string)
    requires name != [] && '.' !in name && '.' !in ext
    ensures DropExtension(name + "." + ext) == name
  {
    var base := name + "." + ext;
    forall k | |name| < k < |base| ensures base[k] != '.' {
      assert base[k] == ext[k - |name| - 1];
    }
    LastOccurrence(base, '.', |name|);
    assert base[0] == name[0] != '.';
    assert base[..|name|] == name;
  }

  /** The last occurrence of `c` is at `i` when `s[i]` is `c` and nothing after it is. */
  lemma LastOccurrence(s: string, c: char, i: nat)
    requires i < |s| && s[i] == c && forall k :: i < k < |s| ==> s[k] != c
    ensures RFindChar(s, c) == Some(i)
  {
  }

  /** A name made only of a leading dot and no other dot keeps its whole text. */
  lemma HiddenFileHasNoExtension(rest: string)
    requires '.' !in rest && '/' !in rest
    ensures SourceId("." + rest) == "." + rest
  {
    var base := "." + rest;
    assert forall k :: 0 < k < |base| ==> base[k] != '.' by {
      forall k | 0 < k < |base| ensures base[k] != '.' {
        assert base[k] == rest[k - 1];
      }
    }
    assert RFindChar(base, '.') == Some(0);
  }

  /**
   * `parse_questions_from_file` on what `json.load` gave (`None` for a read or parse error):
   * a value without a length makes the progress message raise, which also gives `[]`.
   */
  function ParseQuestionsFile(loaded: Option<Json>): (r: Json)
    ensures loaded.None? ==> r == JArr([])
    ensures loaded.Some? && (loaded.value.JStr? || loaded.value.JArr? || loaded.value.JObj?) ==> r == loaded.value
  {
    match loaded
    case None => JArr([])
    case Some(j) => if j.JStr? || j.JArr? || j.JObj? then j else JArr([])
  }

  /** The questions of a decoded list whose every item is an object. */
  function QuestionObjects(items: seq<Json>): (r: Option<seq<map<string, Json>>>)
    ensures r.Some? <==> forall i :: 0 <= i < |items| ==> items[i].JObj?
    ensures r.Some? ==> |r.value| == |items| && forall i :: 0 <= i < |items| ==> items[i] == JObj(r.value[i])
  {
    if forall i :: 0 <= i < |items| ==> items[i].JObj? then
      Some(seq(|items|, i requires 0 <= i < |items| && items[i].JObj? => items[i].fields))
    else None
  }

  /**
   * `index_questions_file`: `Success(None)` when nothing is indexed, `Success(Some(batch))`
   * for the batch handed to the collection, `Failure` when `add_questions` raises on a value
   * that is not a list of questions or on an unsliceable document.
   */
  method IndexQuestionsFile(filename: string, loaded: Option<Json>, dumps: Json -> string)
    returns (r: Result<Option<Batch>, string>)
    ensures !Truthy(ParseQuestionsFile(loaded)) ==> r == Success(None)
    ensures r.Success? && r.value.Some? ==>
      exists qs :: ParseQuestionsFile(loaded) == JArr(qs) && QuestionObjects(qs).Some? &&
        r.value.value == QuestionBatch(QuestionObjects(qs).value, SourceId(filename), dumps)
    ensures r.Success? ==> r.value.Some? || !Truthy(ParseQuestionsFile(loaded))
    ensures var j := ParseQuestionsFile(loaded);
      Truthy(j) && j.JArr? && QuestionObjects(j.items).Some? && DocumentsSliceable(QuestionObjects(j.items).value)
      ==> r == Success(Some(QuestionBatch(QuestionObjects(j.items).value, SourceId(filename), dumps)))
    ensures var j := ParseQuestionsFile(loaded);
      r.Failure? <==> Truthy(j) && !(j.JArr? && QuestionObjects(j.items).Some?
                                     && DocumentsSliceable(QuestionObjects(j.items).value))
  {
    var sourceId := SourceId(filename);
    var questions := ParseQuestionsFile(loaded);
    if !Truthy(questions) {
      return Success(None);
    }
    if !questions.JArr? {
      return Failure("AttributeError: 'str' object has no attribute 'get'");
    }
    var objects := QuestionObjects(questions.items);
    if objects.None? {
      return Failure("AttributeError: list item has no attribute 'get'");
    }
    var added := AddQuestions(objects.value, sourceId, dumps);
    if added.Failure? {
      return Failure(added.error);
    }
    r := Success(Some(added.value));
  }

  /** A read or parse error, an empty list and a number all index nothing. */
  lemma NothingToIndex(loaded: Option<Json>)
    requires loaded.None? || loaded == Some(JArr([])) || (loaded.Some? && loaded.value.JNum?)
    ensures !Truthy(ParseQuestionsFile(loaded))
  {
  }
}

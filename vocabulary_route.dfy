/**
 * The vocabulary importer's `POST /api/generate` route: the API-key guard, the
 * `categories` guard, the prompt that lists the categories, and the check that every
 * category of the model's JSON answer has at least five words.
 *
 * The request body is an input (`Failure` when `req.json()` throws), the model's text
 * is an input (`Failure` when `generateText` throws), and `decode` stands for
 * `JSON.parse` (`None` when it throws).
 */
module VocabularyRoute {
  import opened Wrappers
  import opened Strings
  import opened JsonValues

  /** An HTTP answer: its status and its JSON body. */
  datatype Response = Response(status: nat, body: Json)

  /** `Response.json({ error: message }, { status })`. */
  function ErrorResponse(status: nat, message: string): Response {
    Response(status, JObj(map["error" := JStr(message)]))
  }

  const KeyMissing := "OpenAI API key is not configured"
  const NoCategories := "At least one category is required"
  const InvalidVocabulary := "Failed to generate valid vocabulary response"
  /** The prefix of every error caught by the outer `catch`. */
  const GenerationFailed := "Failed to generate vocabulary: "
  /** The runtime's messages for destructuring `null` and for calling `join` on a non-array. */
  const NullBodyMessage := "Cannot destructure property 'categories' of '(intermediate value)' as it is null."
  const NoJoinMessage := "categories.join is not a function"

  /** The API key is configured: set and not empty. */
  predicate KeyConfigured(apiKey: Option<string>) {
    apiKey.Some? && apiKey.value != ""
  }

  // ---------------------------------------------------------------------------
  // The guards before the model call

  /** `const { categories } = body`: `None` for `undefined`. */
  function CategoriesField(body: Json): (r: Option<Json>)
    ensures r.Some? <==> body.JObj? && "categories" in body.fields
  {
    if body.JObj? && "categories" in body.fields then Some(body.fields["categories"]) else None
  }

  /** `categories.length === 0` for a value that is not `null`. */
  predicate LengthIsZero(c: Json) {
    match c
    case JArr(items) => items == []
    case JStr(s) => s == ""
    case JObj(f) => "length" in f && (f["length"] == JNum(0) || f["length"] == JReal(0.0))
    case _ => false
  }

  /** `!categories || categories.length === 0`. */
  predicate NoCategoriesGiven(c: Option<Json>) {
    c.None? || !JsTruthy(c.value) || LengthIsZero(c.value)
  }

  /** Where the route stands before the model call: answered already, or asking with these categories. */
  datatype Stage = Answer(response: Response) | Ask(categories: seq<Json>)

  /** The route up to the model call. */
  function Guard(apiKey: Option<string>, body: Result<Json, string>): (s: Stage)
    ensures !KeyConfigured(apiKey) ==> s == Answer(ErrorResponse(500, KeyMissing))
    ensures s == Answer(ErrorResponse(400, NoCategories)) <==>
      KeyConfigured(apiKey) && body.Success? && !body.value.JNull? && NoCategoriesGiven(CategoriesField(body.value))
    ensures s.Ask? <==>
      KeyConfigured(apiKey) && body.Success? && CategoriesField(body.value).Some?
      && CategoriesField(body.value).value.JArr? && CategoriesField(body.value).value.items != []
    ensures s.Ask? ==> CategoriesField(body.value) == Some(JArr(s.categories))
    ensures s.Answer? ==> s.response.status == 400 || s.response.status == 500
  {
    if !KeyConfigured(apiKey) then Answer(ErrorResponse(500, KeyMissing))
    else match body
      case Failure(msg) => Answer(ErrorResponse(500, GenerationFailed + msg))
      case Success(b) =>
        if b.JNull? then Answer(ErrorResponse(500, GenerationFailed + NullBodyMessage))
        else
          var c := CategoriesField(b);
          if NoCategoriesGiven(c) then Answer(ErrorResponse(400, NoCategories))
          else if c.value.JArr? then Ask(c.value.items)
          else Answer(ErrorResponse(500, GenerationFailed + NoJoinMessage))
  }

  // ---------------------------------------------------------------------------
  // The prompt

  const PromptHead := "Generate a comprehensive list of Spanish vocabulary words related to the following themes: "

  const PromptTail :=
    ". \n"
    + "    The output should be a JSON object where each key is a category and its value is an array of vocabulary items.\n"
    + "    Each vocabulary item in the array should be an object containing:\n"
    + "    - spanish: the Spanish word\n"
    + "    - english: the English translation\n"
    + "    - parts: an object containing:\n"
    + "      - category: the part of speech (noun, verb, adjective, etc.)\n"
    + "      - type: subcategory or specific usage\n"
    + "      - formality: formal, informal, or neutral\n"
    + "    \n"
    + "    Generate at least 5 relevant words for each category. Ensure the output is valid JSON without any markdown formatting."

  /** `categories.join(", ")`. */
  function CategoryList(categories: seq<Json>, showReal: real -> string): string {
    Join(seq(|categories|, i requires 0 <= i < |categories| => JoinPiece(categories[i], showReal)), ", ")
  }

  /** The prompt sent to the model: the fixed text with the category list spliced in. */
  function Prompt(categories: seq<Json>, showReal: real -> string): (p: string)
    ensures StartsWith(p, PromptHead + CategoryList(categories, showReal))
    ensures EndsWith(p, PromptTail)
  {
    var p := PromptHead + CategoryList(categories, showReal) + PromptTail;
    assert p[..|PromptHead + CategoryList(categories, showReal)|] == PromptHead + CategoryList(categories, showReal);
    p
  }

  /** The names of a list of string categories. */
  function Names(categories: seq<Json>): (r: seq<string>)
    requires forall i :: 0 <= i < |categories| ==> categories[i].JStr?
    ensures |r| == |categories| && forall i :: 0 <= i < |r| ==> categories[i] == JStr(r[i])
  {
    seq(|categories|, i requires 0 <= i < |categories| && categories[i].JStr? => categories[i].s)
  }

  /**
   * For string categories the prompt lists them joined by ", " in request order, and so
   * names each of them.
   */
  lemma PromptListsCategories(categories: seq<Json>, showReal: real -> string, k: nat)
    requires forall i :: 0 <= i < |categories| ==> categories[i].JStr?
    requires k < |categories|
    ensures StartsWith(Prompt(categories, showReal), PromptHead + Join(Names(categories), ", "))
    ensures Contains(Prompt(categories, showReal), categories[k].s)
  {
    var names := Names(categories);
    assert seq(|categories|, i requires 0 <= i < |categories| => JoinPiece(categories[i], showReal)) == names;
    var p := Prompt(categories, showReal);
    var list := Join(names, ", ");
    JoinContainsElement(names, ", ", k);
    assert p == PromptHead + list + PromptTail;
    ContainsInfix(PromptHead, list, PromptTail);
    ContainsTransitive(p, list, names[k]);
  }

  // ---------------------------------------------------------------------------
  // Validating the model's answer

  /**
   * `value.length`: `Failure` for the `TypeError` on `null`, `None` for `undefined`.
   * A string's length is its number of characters.
   */
  function LengthOf(v: Json): (r: Result<Option<Json>, string>)
    ensures r.Failure? <==> v.JNull?
    ensures v.JArr? ==> r == Success(Some(JNum(|v.items|)))
  {
    match v
    case JNull => Failure("Cannot read properties of null (reading 'length')")
    case JArr(items) => Success(Some(JNum(|items|)))
    case JStr(s) => Success(Some(JNum(|s|)))
    case JObj(f) => Success(if "length" in f then Some(f["length"]) else None)
    case _ => Success(None)
  }

  /**
   * `length < 5` under JavaScript's comparison. `toNumber` is JavaScript's `ToNumber` on a
   * string, array or object (`None` for `NaN`); `undefined` compares as `NaN`, so never below.
   */
  predicate BelowFive(len: Option<Json>, toNumber: Json -> Option<real>) {
    match len
    case None => false
    case Some(JNull) => true
    case Some(JBool(_)) => true
    case Some(JNum(n)) => n < 5
    case Some(JReal(x)) => x < 5.0
    case Some(x) => toNumber(x).Some? && toNumber(x).value < 5.0
  }

  /** The check on one visited value passes: it has a length and that length is not below 5. */
  predicate LongEnough(v: Json, toNumber: Json -> Option<real>) {
    LengthOf(v).Success? && !BelowFive(LengthOf(v).value, toNumber)
  }

  /**
   * The `for ... in` loop passes: every value it visits is long enough. It visits an
   * object's values, an array's items and a string's one-character pieces, and nothing else.
   */
  predicate EveryCategoryLongEnough(j: Json, toNumber: Json -> Option<real>) {
    match j
    case JObj(f) => forall k :: k in f ==> LongEnough(f[k], toNumber)
    case JArr(items) => forall i :: 0 <= i < |items| ==> LongEnough(items[i], toNumber)
    case JStr(s) => s == ""
    case _ => true
  }

  /** The answer accepted from the model: it parses and passes the loop. */
  predicate Accepted(text: string, decode: string -> Option<Json>, toNumber: Json -> Option<real>) {
    decode(text).Some? && EveryCategoryLongEnough(decode(text).value, toNumber)
  }

  /**
   * `POST`. `reply` is the model's text for `Prompt(categories)`; it is only asked for when
   * the guards pass.
   */
  function Post(apiKey: Option<string>, body: Result<Json, string>, reply: Result<string, string>,
                decode: string -> Option<Json>, toNumber: Json -> Option<real>): (r: Response)
    ensures !KeyConfigured(apiKey) ==> r == ErrorResponse(500, KeyMissing)
    ensures Guard(apiKey, body).Answer? ==> r == Guard(apiKey, body).response
    ensures Guard(apiKey, body).Ask? && reply.Failure? ==> r == ErrorResponse(500, GenerationFailed + reply.error)
    ensures r.status == 200 <==>
      Guard(apiKey, body).Ask? && reply.Success? && Accepted(reply.value, decode, toNumber)
    ensures r.status == 200 ==> r.body == decode(reply.value).value
    ensures Guard(apiKey, body).Ask? && reply.Success? && !Accepted(reply.value, decode, toNumber) ==>
      r == ErrorResponse(500, InvalidVocabulary)
  {
    match Guard(apiKey, body)
    case Answer(response) => response
    case Ask(_) =>
      match reply
      case Failure(msg) => ErrorResponse(500, GenerationFailed + msg)
      case Success(text) =>
        if Accepted(text, decode, toNumber) then Response(200, decode(text).value)
        else ErrorResponse(500, InvalidVocabulary)
  }

  /** A category with fewer than five words makes the whole answer a 500. */
  lemma ShortCategoryRejected(apiKey: Option<string>, body: Result<Json, string>, text: string,
                              decode: string -> Option<Json>, toNumber: Json -> Option<real>,
                              f: map<string, Json>, category: string)
    requires Guard(apiKey, body).Ask?
    requires decode(text) == Some(JObj(f)) && category in f && f[category].JArr? && |f[category].items| < 5
    ensures Post(apiKey, body, Success(text), decode, toNumber) == ErrorResponse(500, InvalidVocabulary)
  {
    assert !LongEnough(f[category], toNumber);
  }

  /** A vocabulary object whose every category lists at least five words is returned unchanged. */
  lemma FullVocabularyReturnedUnchanged(apiKey: Option<string>, body: Result<Json, string>, text: string,
                                        decode: string -> Option<Json>, toNumber: Json -> Option<real>,
                                        f: map<string, Json>)
    requires Guard(apiKey, body).Ask?
    requires decode(text) == Some(JObj(f))
    requires forall k :: k in f ==> f[k].JArr? && |f[k].items| >= 5
    ensures Post(apiKey, body, Success(text), decode, toNumber) == Response(200, JObj(f))
  {
    forall k | k in f ensures LongEnough(f[k], toNumber) {
      assert LengthOf(f[k]) == Success(Some(JNum(|f[k].items|)));
    }
  }

  /**
   * The check only looks at `.length`: a category whose value is a number has no length,
   * so it passes, and the answer is returned.
   */
  lemma NumericCategoryPasses(toNumber: Json -> Option<real>)
    ensures EveryCategoryLongEnough(JObj(map["food" := JNum(3)]), toNumber)
  {
    var f := map["food" := JNum(3)];
    forall k | k in f ensures LongEnough(f[k], toNumber) {
      assert f[k] == JNum(3);
    }
  }

  /** A body without `categories`, or with an empty list, gets the 400 answer. */
  lemma MissingOrEmptyCategoriesIs400(apiKey: Option<string>, fields: map<string, Json>)
    requires KeyConfigured(apiKey)
    requires "categories" !in fields || fields["categories"] == JArr([])
    ensures Guard(apiKey, Success(JObj(fields))) == Answer(ErrorResponse(400, NoCategories))
  {
  }
}

/**
 * The vocabulary importer's form: the comma-separated category list it parses, the
 * request body it sends, and the `result`/`isLoading`/`isCopied` state a submission
 * leaves behind.
 *
 * The network is an input: `reply` is the status and parsed body `fetch` and
 * `response.json()` produced (`Failure` with the message when either throws), and
 * `stringify` stands for `JSON.stringify(data, null, 2)`.
 */
module VocabularyImporter {
  import opened Wrappers
  import opened Strings
  import opened JsonValues
  import opened VocabularyRoute

  // ---------------------------------------------------------------------------
  // The category list

  /** A text `trim()` reduces to nothing. */
  predicate Blank(piece: string) {
    Strip(piece) == ""
  }

  /** Every piece is blank. */
  predicate AllBlank(pieces: seq<string>) {
    forall i :: 0 <= i < |pieces| ==> Blank(pieces[i])
  }

  /** A text `trim()` leaves as it is and `filter(Boolean)` keeps: non-empty, no blank at either end. */
  predicate Trimmed(x: string) {
    x != "" && x[0] !in Whitespace && x[|x| - 1] !in Whitespace
  }

  /** Every entry is trimmed. */
  predicate AllTrimmed(xs: seq<string>) {
    forall i :: 0 <= i < |xs| ==> Trimmed(xs[i])
  }

  lemma StripIsTrimmed(s: string)
    ensures Strip(s) != "" ==> Trimmed(Strip(s))
  {
  }

  lemma AllBlankCons(pieces: seq<string>)
    requires pieces != []
    ensures AllBlank(pieces) <==> Blank(pieces[0]) && AllBlank(pieces[1..])
  {
    assert forall i :: 1 <= i < |pieces| ==> pieces[i] == pieces[1..][i - 1];
  }

  lemma AllTrimmedCons(t: string, rest: seq<string>)
    requires Trimmed(t) && AllTrimmed(rest)
    ensures AllTrimmed([t] + rest)
  {
  }

  /** `.map((cat) => cat.trim()).filter(Boolean)` over the pieces of the input. */
  function TrimmedNonEmpty(pieces: seq<string>): (r: seq<string>)
    ensures r == [] <==> AllBlank(pieces)
    ensures AllTrimmed(r)
  {
    if pieces == [] then []
    else
      var t := Strip(pieces[0]);
      var rest := TrimmedNonEmpty(pieces[1..]);
      AllBlankCons(pieces);
      if t != "" then
        StripIsTrimmed(pieces[0]);
        AllTrimmedCons(t, rest);
        [t] + rest
      else rest
  }

  /** `categories.split(",").map((cat) => cat.trim()).filter(Boolean)`. */
  function ParseCategories(input: string): (r: seq<string>)
    ensures r == [] <==> AllBlank(SplitOn(input, ','))
    ensures AllTrimmed(r)
  {
    TrimmedNonEmpty(SplitOn(input, ','))
  }

  /** No entry holds `c`. */
  predicate NoneHolds(xs: seq<string>, c: char) {
    forall i :: 0 <= i < |xs| ==> c !in xs[i]
  }

  /** No parsed category holds a comma: each is a trimmed piece between two commas. */
  lemma ParsedCategoriesLackCommas(input: string)
    ensures NoneHolds(ParseCategories(input), ',')
  {
    SplitOnPiecesLackSeparator(input, ',');
    TrimmedLackSeparator(SplitOn(input, ','), ',');
  }

  lemma {:induction false} TrimmedLackSeparator(pieces: seq<string>, c: char)
    requires NoneHolds(pieces, c)
    ensures NoneHolds(TrimmedNonEmpty(pieces), c)
    decreases |pieces|
  {
    if pieces != [] {
      NoneHoldsSplit([pieces[0]], pieces[1..], c);
      TrimmedLackSeparator(pieces[1..], c);
      var t := Strip(pieces[0]);
      if t != "" {
        StripKeepsAbsent(pieces[0], c);
        NoneHoldsJoin([t], TrimmedNonEmpty(pieces[1..]), c);
      }
    }
  }

  lemma NoneHoldsSplit(a: seq<string>, b: seq<string>, c: char)
    requires NoneHolds(a + b, c)
    ensures NoneHolds(a, c) && NoneHolds(b, c)
  {
    assert forall i :: 0 <= i < |a| ==> a[i] == (a + b)[i];
    assert forall i :: 0 <= i < |b| ==> b[i] == (a + b)[|a| + i];
  }

  lemma NoneHoldsJoin(a: seq<string>, b: seq<string>, c: char)
    requires NoneHolds(a, c) && NoneHolds(b, c)
    ensures NoneHolds(a + b, c)
  {
  }

  /** A category as the form produces it: non-empty, trimmed, without a comma. */
  predicate CleanCategory(x: string) {
    Trimmed(x) && ',' !in x
  }

  /** The pieces `xs.join(", ")` splits into at `,`: every category after the first keeps its space. */
  function Spaced(xs: seq<string>): (r: seq<string>)
    requires xs != []
    ensures |r| == |xs| && r[0] == xs[0]
    ensures forall i :: 1 <= i < |xs| ==> r[i] == " " + xs[i]
  {
    seq(|xs|, i requires 0 <= i < |xs| => if i == 0 then xs[0] else " " + xs[i])
  }

  lemma {:induction false} JoinSpaced(xs: seq<string>)
    requires xs != []
    ensures Join(xs, ", ") == Join(Spaced(xs), ",")
    decreases |xs|
  {
    if |xs| > 1 {
      var init := xs[..|xs| - 1];
      var last := xs[|xs| - 1];
      JoinSpaced(init);
      assert xs == init + [last];
      JoinAppend(init, last, ", ");
      assert Spaced(xs) == Spaced(init) + [" " + last];
      JoinAppend(Spaced(init), " " + last, ",");
    }
  }

  /** Trimming a clean category, with or without one leading space, gives it back. */
  lemma StripClean(x: string)
    requires CleanCategory(x)
    ensures Strip(x) == x && Strip(" " + x) == x
  {
    assert StripLeft(x, Whitespace) == x;
    assert (" " + x)[1..] == x;
    assert StripLeft(" " + x, Whitespace) == x;
    assert StripRight(x, Whitespace) == x;
  }

  lemma {:induction false} TrimmedNonEmptyGivesBack(pieces: seq<string>, xs: seq<string>)
    requires |pieces| == |xs|
    requires forall i :: 0 <= i < |xs| ==> xs[i] != "" && Strip(pieces[i]) == xs[i]
    ensures TrimmedNonEmpty(pieces) == xs
    decreases |pieces|
  {
    if pieces != [] {
      TrimmedNonEmptyGivesBack(pieces[1..], xs[1..]);
      assert xs == [xs[0]] + xs[1..];
    }
  }

  /**
   * Typing clean categories separated by ", " gives back exactly those categories, in
   * the order they were typed.
   */
  lemma ParseJoinedCategories(xs: seq<string>)
    requires xs != [] && forall i :: 0 <= i < |xs| ==> CleanCategory(xs[i])
    ensures ParseCategories(Join(xs, ", ")) == xs
  {
    SplitJoined(xs);
    SpacedStripsBack(xs);
    TrimmedNonEmptyGivesBack(Spaced(xs), xs);
  }

  /** Splitting the joined list at `,` gives the spaced pieces. */
  lemma SplitJoined(xs: seq<string>)
    requires xs != [] && forall i :: 0 <= i < |xs| ==> CleanCategory(xs[i])
    ensures SplitOn(Join(xs, ", "), ',') == Spaced(xs)
  {
    var pieces := Spaced(xs);
    JoinSpaced(xs);
    forall i | 0 <= i < |pieces| ensures ',' !in pieces[i] {
      if i > 0 {
        assert pieces[i] == " " + xs[i];
      }
    }
    SplitJoinRoundTrip(pieces, ',');
  }

  /** Trimming each spaced piece gives the category back. */
  lemma SpacedStripsBack(xs: seq<string>)
    requires xs != [] && forall i :: 0 <= i < |xs| ==> CleanCategory(xs[i])
    ensures forall i :: 0 <= i < |xs| ==> xs[i] != "" && Strip(Spaced(xs)[i]) == xs[i]
  {
    forall i | 0 <= i < |xs| ensures Strip(Spaced(xs)[i]) == xs[i] {
      StripClean(xs[i]);
    }
  }

  /** Commas with nothing but blanks between them give no category. */
  lemma BlankInputGivesNoCategory()
    ensures ParseCategories(" , ,") == []
  {
    SplitOnFirst(" ", ',', "");
    SplitOnFirst(" ", ',', " ,");
    assert " , ," == " " + [','] + " ,";
    assert " ," == " " + [','] + "";
    assert Strip(" ") == "";
    assert Strip("") == "";
  }

  // ---------------------------------------------------------------------------
  // One submission

  /** The categories as the JSON strings of the request. */
  function JStrings(categories: seq<string>): (r: seq<Json>)
    ensures |r| == |categories| && forall i :: 0 <= i < |r| ==> r[i] == JStr(categories[i])
  {
    seq(|categories|, i requires 0 <= i < |categories| => JStr(categories[i]))
  }

  /** The request body: `JSON.stringify({ categories: categoryList })`, as the route reads it. */
  function RequestBody(categories: seq<string>): (b: Json)
    ensures CategoriesField(b) == Some(JArr(JStrings(categories)))
  {
    JObj(map["categories" := JArr(JStrings(categories))])
  }

  /** The status and parsed body of the route's answer. */
  datatype Reply = Reply(status: int, data: Json)

  /** `response.ok`. */
  predicate Ok(status: int) {
    200 <= status <= 299
  }

  const EmptyInput := "Please enter at least one category"
  const DefaultFailure := "Failed to generate vocabulary"

  /**
   * The message of `new Error(data.error || "Failed to generate vocabulary")`; `Failure`
   * for the `TypeError` of reading `error` on `null`.
   */
  function ServerMessage(data: Json, showReal: real -> string): (r: Result<string, string>)
    ensures r.Failure? <==> data.JNull?
    ensures data.JObj? && "error" in data.fields && data.fields["error"].JStr? && data.fields["error"].s != "" ==>
      r == Success(data.fields["error"].s)
    ensures data.JObj? && "error" !in data.fields ==> r == Success(DefaultFailure)
  {
    match data
    case JNull => Failure("Cannot read properties of null (reading 'error')")
    case JObj(f) =>
      if "error" in f && JsTruthy(f["error"]) then Success(JsText(f["error"], showReal))
      else Success(DefaultFailure)
    case _ => Success(DefaultFailure)
  }

  /** What one submission amounts to: the body sent (if any), the result text, and the error toast. */
  datatype Outcome = Outcome(sent: Option<Json>, result: string, error: Option<string>)

  /** The effect of `onSubmit` for the text in the input field. */
  function Submission(input: string, reply: Result<Reply, string>, stringify: Json -> string,
                      showReal: real -> string): (o: Outcome)
    ensures o.sent.None? <==> ParseCategories(input) == []
    ensures o.sent.Some? ==> o.sent.value == RequestBody(ParseCategories(input))
    ensures ParseCategories(input) == [] ==> o.error == Some(EmptyInput)
    ensures o.error.None? <==> o.sent.Some? && reply.Success? && Ok(reply.value.status)
    ensures o.error.None? ==> o.result == stringify(reply.value.data)
    ensures o.error.Some? ==> o.result == ""
    ensures o.sent.Some? && reply.Failure? ==> o.error == Some(reply.error)
  {
    SubmitCategories(ParseCategories(input), reply, stringify, showReal)
  }

  /** The effect of `onSubmit` once the input is parsed into `list`. */
  function SubmitCategories(list: seq<string>, reply: Result<Reply, string>, stringify: Json -> string,
                            showReal: real -> string): (o: Outcome)
    ensures o.sent.None? <==> list == []
    ensures o.sent.Some? ==> o.sent.value == RequestBody(list)
    ensures list == [] ==> o.error == Some(EmptyInput)
    ensures o.error.None? <==> o.sent.Some? && reply.Success? && Ok(reply.value.status)
    ensures o.error.None? ==> o.result == stringify(reply.value.data)
    ensures o.error.Some? ==> o.result == ""
    ensures o.sent.Some? && reply.Failure? ==> o.error == Some(reply.error)
  {
    if list == [] then Outcome(None, "", Some(EmptyInput))
    else
      var sent := Some(RequestBody(list));
      match reply
      case Failure(msg) => Outcome(sent, "", Some(msg))
      case Success(Reply(status, data)) =>
        if Ok(status) then Outcome(sent, stringify(data), None)
        else
          match ServerMessage(data, showReal)
          case Failure(msg) => Outcome(sent, "", Some(msg))
          case Success(msg) => Outcome(sent, "", Some(msg))
  }

  /**
   * Every error answer of the route reaches the user with the route's own message: a
   * 400 or 500 answer carries a non-empty `error` string.
   */
  lemma RouteErrorsReachTheUser(input: string, apiKey: Option<string>, reply: Result<string, string>,
                                decode: string -> Option<Json>, toNumber: Json -> Option<real>,
                                stringify: Json -> string, showReal: real -> string)
    requires ParseCategories(input) != []
    requires var r := Post(apiKey, Success(RequestBody(ParseCategories(input))), reply, decode, toNumber);
      r.status != 200
    ensures var r := Post(apiKey, Success(RequestBody(ParseCategories(input))), reply, decode, toNumber);
      r.body.JObj? && "error" in r.body.fields && r.body.fields["error"].JStr?
      && Submission(input, Success(Reply(r.status, r.body)), stringify, showReal).error
         == Some(r.body.fields["error"].s)
  {
    var body := Success(RequestBody(ParseCategories(input)));
    var r := Post(apiKey, body, reply, decode, toNumber);
    var g := Guard(apiKey, body);
    assert r.status == 400 || r.status == 500;
    assert r.body.JObj? && "error" in r.body.fields;
    assert r.body.fields["error"].s != "" by {
      var m := r.body.fields["error"].s;
      if g.Answer? {
        assert |m| > 0;
      } else if reply.Failure? {
        assert m == GenerationFailed + reply.error;
      } else {
        assert m == InvalidVocabulary;
      }
    }
  }

  /**
   * What the form sends passes the route's category guard: with a configured key the
   * route asks the model, with a prompt that lists the parsed categories in order.
   */
  lemma FormRequestReachesModel(input: string, apiKey: Option<string>, showReal: real -> string)
    requires ParseCategories(input) != [] && KeyConfigured(apiKey)
    ensures var g := Guard(apiKey, Success(RequestBody(ParseCategories(input))));
      g.Ask? && StartsWith(Prompt(g.categories, showReal), PromptHead + Join(ParseCategories(input), ", "))
  {
    ListReachesModel(ParseCategories(input), apiKey, showReal);
  }

  lemma ListReachesModel(list: seq<string>, apiKey: Option<string>, showReal: real -> string)
    requires list != [] && KeyConfigured(apiKey)
    ensures var g := Guard(apiKey, Success(RequestBody(list)));
      g.Ask? && StartsWith(Prompt(g.categories, showReal), PromptHead + Join(list, ", "))
  {
    var cats := JStrings(list);
    RequestAsks(list, apiKey);
    NamesOfStrings(list);
    PromptListsCategories(cats, showReal, 0);
  }

  lemma NamesOfStrings(list: seq<string>)
    ensures Names(JStrings(list)) == list
  {
  }

  /** A non-empty category list with a configured key passes the route's guard unchanged. */
  lemma RequestAsks(list: seq<string>, apiKey: Option<string>)
    requires list != [] && KeyConfigured(apiKey)
    ensures Guard(apiKey, Success(RequestBody(list))) == Ask(JStrings(list))
  {
    var b := RequestBody(list);
    assert CategoriesField(b) == Some(JArr(JStrings(list)));
    assert !NoCategoriesGiven(CategoriesField(b));
  }

  // ---------------------------------------------------------------------------
  // The component's state

  /** The `useState` slots of `LanguageImporter`; `toast` is the description of the last error toast. */
  class Importer {
    var categories: string
    var result: string
    var isLoading: bool
    var isCopied: bool
    var toast: Option<string>

    /** The initial state: everything empty, nothing loading. */
    constructor ()
      ensures categories == "" && result == "" && !isLoading && !isCopied && toast.None?
    {
      categories := "";
      result := "";
      isLoading := false;
      isCopied := false;
      toast := None;
    }

    /** The input field's `onChange`. */
    method SetCategories(text: string)
      modifies this
      ensures categories == text
      ensures result == old(result) && isLoading == old(isLoading) && isCopied == old(isCopied) && toast == old(toast)
    {
      categories := text;
    }

    /** `onSubmit`: returns the body of the request sent, `None` when none is sent. */
    method OnSubmit(reply: Result<Reply, string>, stringify: Json -> string, showReal: real -> string)
      returns (sent: Option<Json>)
      modifies this
      ensures var o := Submission(old(categories), reply, stringify, showReal);
        sent == o.sent && result == o.result
        && toast == (if o.error.Some? then o.error else old(toast))
      ensures !isLoading && !isCopied && categories == old(categories)
    {
      var list := ParseCategories(categories);
      ghost var o := SubmitCategories(list, reply, stringify, showReal);
      assert o == Submission(categories, reply, stringify, showReal);
      isLoading := true;
      result := "";
      isCopied := false;
      if list == [] {
        sent := None;
        toast := Some(EmptyInput);
      } else {
        sent := Some(RequestBody(list));
        match reply {
          case Failure(msg) =>
            toast := Some(msg);
          case Success(Reply(status, data)) =>
            if Ok(status) {
              result := stringify(data);
            } else {
              var message := ServerMessage(data, showReal);
              toast := Some(if message.Failure? then message.error else message.value);
            }
        }
      }
      isLoading := false;
    }
  }
}

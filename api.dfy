/**
 * The search client (`searchRelatedText`): a length guard in front of the
 * request, the request's form fields, and the mapping of a failed request to
 * the message of the error it throws. The HTTP exchange itself is an input:
 * `Outcome` is what the POST produced.
 */
module Api {
  import opened Types
  import opened Text

  const ApiBaseUrl := "http://localhost:8000"
  const SearchUrl := ApiBaseUrl + "/api/search"
  const MaxQueryLength := 1000
  const DefaultTopK := 10
  const TooLongMarker := "string_too_long"
  const TooLongPrefix := "Query is too long ("
  const LengthCloser := " characters). "
  const MaximumSentence := "Maximum allowed is 1000 characters."
  const FixedTooLongMessage := LimitMessage("1000")
  const ValidationErrorText := "Validation error"
  const SearchFailedText := "Failed to search"

  // ---------------------------------------------------------------- the length guard

  /** The message of the error thrown for a query of `n` characters. */
  function TooLongQueryMessage(n: nat): string {
    TooLongPrefix + NatToDecimal(n) + LengthCloser + MaximumSentence
  }

  /** The length a too-long-query message reports, read back from its text. */
  function ReportedLength(m: string): Option<nat> {
    if |m| >= |TooLongPrefix| && m[..|TooLongPrefix|] == TooLongPrefix then
      var d := LeadingDigits(m[|TooLongPrefix|..]);
      if d == [] then None else Some(DecimalValue(d))
    else None
  }

  /** The guard's message names the query's actual length. */
  lemma ReportedLengthRoundTrip(n: nat)
    ensures ReportedLength(TooLongQueryMessage(n)) == Some(n)
  {
    var digits := NatToDecimal(n);
    var rest := LengthCloser + MaximumSentence;
    assert rest[0] == ' ';
    var m := TooLongQueryMessage(n);
    assert m == TooLongPrefix + (digits + rest) by {
      assert m == TooLongPrefix + digits + LengthCloser + MaximumSentence;
    }
    assert m[..|TooLongPrefix|] == TooLongPrefix;
    assert m[|TooLongPrefix|..] == digits + rest;
    LeadingDigitsOf(digits, rest);
    DecimalRoundTrip(n);
  }

  /** The guard: `None` lets the query through, `Some(message)` is the error thrown instead. */
  function CheckQueryLength(query: string): (r: Option<string>)
    ensures r.None? <==> |query| <= MaxQueryLength
    ensures r.Some? ==> ReportedLength(r.value) == Some(|query|)
    ensures r.Some? ==> |r.value| >= |MaximumSentence|
                        && r.value[|r.value| - |MaximumSentence|..] == MaximumSentence
    ensures r.Some? ==> var k := |TooLongPrefix| + |NatToDecimal(|query|)|;
                        |r.value| >= k && r.value[k..] == LengthCloser + MaximumSentence
  {
    if |query| > MaxQueryLength then
      ReportedLengthRoundTrip(|query|);
      TooLongQueryMessageEnds(|query|);
      Some(TooLongQueryMessage(|query|))
    else None
  }

  /** The guard's message ends by stating the 1000-character maximum. */
  lemma TooLongQueryMessageEnds(n: nat)
    ensures var m := TooLongQueryMessage(n);
      |m| >= |MaximumSentence| && m[|m| - |MaximumSentence|..] == MaximumSentence
    ensures var m, k := TooLongQueryMessage(n), |TooLongPrefix| + |NatToDecimal(n)|;
      |m| >= k && m[k..] == LengthCloser + MaximumSentence
  {
    var front := TooLongPrefix + NatToDecimal(n) + LengthCloser;
    assert TooLongQueryMessage(n) == front + MaximumSentence;
    assert TooLongQueryMessage(n) == (TooLongPrefix + NatToDecimal(n)) + (LengthCloser + MaximumSentence);
  }

  // ---------------------------------------------------------------- the request

  datatype FormValue = TextValue(text: string) | FileValue(file: PdfFile)

  datatype FormField = FormField(name: string, value: FormValue)

  /** A multipart POST: where it goes and the form fields in the order they were appended. */
  datatype Request = Request(url: string, fields: seq<FormField>)

  /** The value of the first field called `name`, as `FormData.get` returns it. */
  function Lookup(fields: seq<FormField>, name: string): Option<FormValue> {
    if fields == [] then None
    else if fields[0].name == name then Some(fields[0].value)
    else Lookup(fields[1..], name)
  }

  function BuildRequest(query: string, file: PdfFile, topK: int): Request {
    Request(SearchUrl, [
      FormField("query", TextValue(query)),
      FormField("file", FileValue(file)),
      FormField("top_k", TextValue(IntToDecimal(topK)))])
  }

  /** The server reads back the query, the file and `top_k` the caller passed. */
  lemma RequestCarriesInputs(query: string, file: PdfFile, topK: int)
    ensures Lookup(BuildRequest(query, file, topK).fields, "query") == Some(TextValue(query))
    ensures Lookup(BuildRequest(query, file, topK).fields, "file") == Some(FileValue(file))
    ensures Lookup(BuildRequest(query, file, topK).fields, "top_k").Some?
    ensures Lookup(BuildRequest(query, file, topK).fields, "top_k").value.TextValue?
    ensures ParseInt(Lookup(BuildRequest(query, file, topK).fields, "top_k").value.text) == Some(topK)
  {
    var fs := BuildRequest(query, file, topK).fields;
    assert fs[0].name != "top_k" by { assert fs[0].name[0] == 'q'; }
    assert fs[1].name != "top_k" by { assert fs[1].name[0] == 'f'; }
    assert fs[1..][1..] == [FormField("top_k", TextValue(IntToDecimal(topK)))];
    assert Lookup(fs, "top_k") == Lookup(fs[1..], "top_k") == Lookup(fs[1..][1..], "top_k");
    IntRoundTrip(topK);
  }

  // ---------------------------------------------------------------- failures

  /** One entry of a validation error list: its `type`, `ctx.max_length` and `msg`, each possibly absent. */
  datatype ValidationItem = ValidationItem(kind: Option<string>, maxLength: Option<int>, msg: Option<string>)

  /** The `detail` of an error body: a list, a string, or anything else (absent included). */
  datatype Detail = ArrayDetail(items: seq<ValidationItem>) | StringDetail(text: string) | OtherDetail

  /** A server response to a failed request: its status and the body's `detail` and `message`. */
  datatype ErrorResponse = ErrorResponse(status: int, detail: Detail, message: Option<string>)

  /**
   * What the POST can throw: an HTTP-client error, with the server's response
   * when there was one and the client's own message; or any other error.
   */
  datatype SearchError =
    | TransportError(response: Option<ErrorResponse>, message: string)
    | ForeignError(description: string)

  datatype Outcome = Delivered(data: SearchResponse) | Rejected(error: SearchError)

  /** What `searchRelatedText` throws: a new error with a message, or the caught error itself. */
  datatype Thrown = Raised(message: string) | Rethrown(error: SearchError)

  /** One call: the request it sent, if any, and what it returned or threw. */
  datatype Call = Call(sent: Option<Request>, result: Result<SearchResponse, Thrown>)

  /** `ctx.max_length || 1000`: an absent or zero limit reads as 1000. */
  function StatedMaximum(maxLength: Option<int>): (n: int)
    ensures n != 0
    ensures maxLength.Some? && maxLength.value != 0 ==> n == maxLength.value
    ensures maxLength.None? || maxLength.value == 0 ==> n == MaxQueryLength
  {
    if maxLength.Some? && maxLength.value != 0 then maxLength.value else MaxQueryLength
  }

  const LimitPrefix := "Query is too long. Maximum allowed is "
  const LimitSuffix := " characters."

  /** The server-side too-long message, for the limit written out in decimal. */
  function LimitMessage(limit: string): string {
    LimitPrefix + limit + LimitSuffix
  }

  /** The limit a server-side too-long message states, read back from its text. */
  function ReportedLimit(m: string): Option<int> {
    if |m| >= |LimitPrefix| + |LimitSuffix|
       && m[..|LimitPrefix|] == LimitPrefix && m[|m| - |LimitSuffix|..] == LimitSuffix
    then ParseInt(m[|LimitPrefix|..|m| - |LimitSuffix|])
    else None
  }

  /** The limit written into a too-long message can be read back from it. */
  lemma ReportedLimitRoundTrip(limit: int)
    ensures ReportedLimit(LimitMessage(IntToDecimal(limit))) == Some(limit)
  {
    var digits := IntToDecimal(limit);
    var m := LimitMessage(digits);
    assert m[..|LimitPrefix|] == LimitPrefix;
    assert m[|m| - |LimitSuffix|..] == LimitSuffix;
    assert m[|LimitPrefix|..|m| - |LimitSuffix|] == digits;
    IntRoundTrip(limit);
  }

  /** The entry a single validation item contributes; never empty. */
  function ItemMessage(item: ValidationItem): (m: string)
    ensures m != []
    ensures item.kind == Some(TooLongMarker) ==> ReportedLimit(m) == Some(StatedMaximum(item.maxLength))
    ensures item.kind == Some(TooLongMarker) ==>
              (|m| >= |LimitPrefix| + |LimitSuffix|
               && m[|LimitPrefix|..|m| - |LimitSuffix|] == IntToDecimal(StatedMaximum(item.maxLength)))
    ensures item.kind != Some(TooLongMarker) && item.msg.Some? && item.msg.value != [] ==> m == item.msg.value
    ensures item.kind != Some(TooLongMarker) && (item.msg.None? || item.msg.value == []) ==> m == ValidationErrorText
  {
    if item.kind == Some(TooLongMarker) then
      ReportedLimitRoundTrip(StatedMaximum(item.maxLength));
      LimitMessage(IntToDecimal(StatedMaximum(item.maxLength)))
    else if item.msg.Some? && item.msg.value != [] then item.msg.value
    else ValidationErrorText
  }

  /** One entry per item, in the items' order. */
  function ItemMessages(items: seq<ValidationItem>): (ms: seq<string>)
    ensures |ms| == |items|
    ensures forall k :: 0 <= k < |items| ==> ms[k] == ItemMessage(items[k])
  {
    seq(|items|, k requires 0 <= k < |items| => ItemMessage(items[k]))
  }

  /** The entries of a concatenation are the entries of each part, in order. */
  lemma ItemMessagesAppend(front: seq<ValidationItem>, back: seq<ValidationItem>)
    ensures ItemMessages(front + back) == ItemMessages(front) + ItemMessages(back)
  {
  }

  function ArrayDetailMessage(items: seq<ValidationItem>): string {
    Join(ItemMessages(items), ", ")
  }

  /** A string detail mentioning the too-long marker becomes the fixed message; any other passes verbatim. */
  function StringDetailMessage(detail: string): string {
    if Contains(detail, TooLongMarker) then FixedTooLongMessage else detail
  }

  /** The server's body carries a non-empty `message`. */
  predicate HasServerMessage(response: Option<ErrorResponse>) {
    response.Some? && response.value.message.Some? && response.value.message.value != []
  }

  /** `response.data.message || error.message || 'Failed to search'`; never empty. */
  function FallbackMessage(response: Option<ErrorResponse>, message: string): (m: string)
    ensures m != []
    ensures HasServerMessage(response) ==> m == response.value.message.value
    ensures !HasServerMessage(response) && message != [] ==> m == message
    ensures !HasServerMessage(response) && message == [] ==> m == SearchFailedText
  {
    if HasServerMessage(response) then
      response.value.message.value
    else if message != [] then message
    else SearchFailedText
  }

  /** A 422 response whose `detail` is an array of validation items. */
  predicate Is422ArrayDetail(e: SearchError) {
    && e.TransportError? && e.response.Some? && e.response.value.status == 422
    && e.response.value.detail.ArrayDetail?
  }

  /** A 422 response whose `detail` is a string. */
  predicate Is422StringDetail(e: SearchError) {
    && e.TransportError? && e.response.Some? && e.response.value.status == 422
    && e.response.value.detail.StringDetail?
  }

  /** The error `searchRelatedText` throws once the POST has failed with `e`. */
  function Normalise(e: SearchError): (t: Thrown)
    ensures t.Rethrown? <==> e.ForeignError?
    ensures t.Rethrown? ==> t.error == e
    ensures Is422ArrayDetail(e) ==> t == Raised(ArrayDetailMessage(e.response.value.detail.items))
    ensures Is422StringDetail(e) && Contains(e.response.value.detail.text, TooLongMarker)
            ==> t == Raised(FixedTooLongMessage)
    ensures Is422StringDetail(e) && !Contains(e.response.value.detail.text, TooLongMarker)
            ==> t == Raised(e.response.value.detail.text)
    ensures e.TransportError? && !Is422ArrayDetail(e) && !Is422StringDetail(e)
            ==> t == Raised(FallbackMessage(e.response, e.message))
  {
    match e
    case ForeignError(_) => Rethrown(e)
    case TransportError(response, message) =>
      if Is422ArrayDetail(e) then Raised(ArrayDetailMessage(response.value.detail.items))
      else if Is422StringDetail(e) then Raised(StringDetailMessage(response.value.detail.text))
      else Raised(FallbackMessage(response, message))
  }

  /**
   * `searchRelatedText(query, file, topK)` given what its POST would produce:
   * a too-long query throws before any request exists; otherwise the request
   * is sent and its data returned as is, or its failure normalised.
   */
  function SearchRelatedText(query: string, file: PdfFile, topK: int, outcome: Outcome): (c: Call)
    ensures c.sent.None? <==> |query| > MaxQueryLength
    ensures c.sent.None? ==> c.result == Failure(Raised(CheckQueryLength(query).value))
    ensures c.sent.Some? ==> c.sent.value == BuildRequest(query, file, topK)
    ensures c.sent.Some? && outcome.Delivered? ==> c.result == Success(outcome.data)
    ensures c.sent.Some? && outcome.Rejected? ==> c.result == Failure(Normalise(outcome.error))
  {
    match CheckQueryLength(query)
    case Some(message) => Call(None, Failure(Raised(message)))
    case None =>
      var request := BuildRequest(query, file, topK);
      match outcome
      case Delivered(data) => Call(Some(request), Success(data))
      case Rejected(error) => Call(Some(request), Failure(Normalise(error)))
  }

  // ---------------------------------------------------------------- properties

  /** A call returns data exactly when the query passes the guard and the server delivers. */
  lemma SearchSucceedsIff(query: string, file: PdfFile, topK: int, outcome: Outcome)
    ensures SearchRelatedText(query, file, topK, outcome).result.Success?
        <==> |query| <= MaxQueryLength && outcome.Delivered?
  {
  }

  /** A query of exactly the maximum length still reaches the server. */
  lemma MaximumLengthPasses(query: string, file: PdfFile, outcome: Outcome)
    requires |query| == MaxQueryLength
    ensures SearchRelatedText(query, file, DefaultTopK, outcome).sent
         == Some(BuildRequest(query, file, DefaultTopK))
  {
  }

  /** The entries of an array detail keep the items' order: splitting the items splits the message. */
  lemma ArrayMessageInOrder(front: seq<ValidationItem>, back: seq<ValidationItem>)
    requires front != [] && back != []
    ensures ArrayDetailMessage(front + back)
         == ArrayDetailMessage(front) + ", " + ArrayDetailMessage(back)
  {
    var ms := ItemMessages(front + back);
    JoinSplit(ms, ", ", |front|);
    assert ms[..|front|] == ItemMessages(front);
    assert ms[|front|..] == ItemMessages(back);
  }

  /** An array detail's message is empty only when the array is. */
  lemma ArrayMessageEmptyIff(items: seq<ValidationItem>)
    ensures ArrayDetailMessage(items) == [] <==> items == []
  {
    JoinEmptyIff(ItemMessages(items), ", ");
  }

  /** The thrown message is empty exactly for a 422 whose detail is an empty list or an empty string. */
  lemma RaisedEmptyIff(e: SearchError)
    ensures Normalise(e) == Raised([]) <==>
      && e.TransportError? && e.response.Some? && e.response.value.status == 422
      && (e.response.value.detail == ArrayDetail([]) || e.response.value.detail == StringDetail([]))
  {
    if Is422ArrayDetail(e) {
      ArrayMessageEmptyIff(e.response.value.detail.items);
    } else if Is422StringDetail(e) {
      var d := e.response.value.detail.text;
      if d == [] {
        assert !OccursAt(d, TooLongMarker, 0);
        assert !Contains(d, TooLongMarker);
      }
    }
  }

  /**
   * A string detail that mentions the marker and a one-item list whose item is
   * a too-long error without a stated limit give the same message.
   */
  lemma TooLongFormsAgree(pre: string, post: string, msg: Option<string>)
    ensures StringDetailMessage(pre + TooLongMarker + post)
         == ArrayDetailMessage([ValidationItem(Some(TooLongMarker), None, msg)])
         == FixedTooLongMessage
  {
    ContainsSlice(pre, TooLongMarker, post);
    var item := ValidationItem(Some(TooLongMarker), None, msg);
    assert ItemMessages([item]) == [ItemMessage(item)];
    assert ItemMessage(item) == LimitMessage(IntToDecimal(MaxQueryLength));
    MaximumDigits();
  }

  lemma MaximumDigits()
    ensures IntToDecimal(MaxQueryLength) == "1000"
  {
    assert NatToDecimal(1) == "1";
    assert NatToDecimal(10) == "10";
    assert NatToDecimal(100) == "100";
  }
}

/** The remote try-on request handler: validate the request, build the
    category prompt, split the user's image data URL, call the image model
    with a bounded exponential-backoff retry on HTTP 429, and turn the
    upstream reply (or the error) into the handler's response. The network,
    the environment and the clock are inputs: the API key is a parameter,
    the model endpoint is an oracle from attempt number to outcome, and the
    waits are recorded as their delays in milliseconds. */
module VirtualTryOn {
  import opened Common

  // ---------------------------------------------------------------------------
  // Prompt templates (`buildTryOnPrompt`)
  // ---------------------------------------------------------------------------

  /** The closing sentence shared by the eyewear, watch and generic prompts. */
  const Keep: string := " Maintain the original photo quality and lighting."

  const EyewearOpening: string := "Add stylish "
  const EyewearBody: string := " sunglasses/glasses to this person's face. The glasses should be positioned naturally on their face, fitting properly on the nose bridge and ears. Make it look realistic as if they're actually wearing the glasses."

  const WatchOpening: string := "Add a "
  const WatchBody: string := " watch to this person's left wrist. The watch should be positioned naturally and sized appropriately for their wrist. Make it look realistic as if they're actually wearing the watch."

  const ClothingOpening: string := "Show this person wearing a "
  const ClothingBody: string := ". The clothing should fit naturally on their body with realistic folds and draping. Maintain the original photo quality, lighting, and the person's pose."

  const GenericOpening: string := "Add "
  const GenericBody: string := " to this person in a natural, realistic way."

  /** Which prompt a request gets: one per known category, else the generic one. */
  datatype Template = EyewearTemplate | WatchTemplate | ClothingTemplate | GenericTemplate

  /** The lookup `categoryPrompts[productCategory] || generic`: only the
      three category keys select their own template. */
  function SelectTemplate(productCategory: string): (t: Template)
    ensures t != GenericTemplate <==> productCategory in {"eyewear", "watch", "clothing"}
    ensures t == EyewearTemplate <==> productCategory == "eyewear"
    ensures t == WatchTemplate <==> productCategory == "watch"
    ensures t == ClothingTemplate <==> productCategory == "clothing"
  {
    if productCategory == "eyewear" then EyewearTemplate
    else if productCategory == "watch" then WatchTemplate
    else if productCategory == "clothing" then ClothingTemplate
    else GenericTemplate
  }

  function Opening(t: Template): string {
    match t
    case EyewearTemplate => EyewearOpening
    case WatchTemplate => WatchOpening
    case ClothingTemplate => ClothingOpening
    case GenericTemplate => GenericOpening
  }

  /** Everything after the product name. */
  function Closing(t: Template): string {
    match t
    case EyewearTemplate => EyewearBody + Keep
    case WatchTemplate => WatchBody + Keep
    case ClothingTemplate => ClothingBody
    case GenericTemplate => GenericBody + Keep
  }

  /** A template filled in with the product name; the name appears verbatim
      right after the template's opening words. */
  function Render(t: Template, productName: string): (p: string)
    ensures |p| == |Opening(t)| + |productName| + |Closing(t)|
    ensures p[|Opening(t)|..|Opening(t)| + |productName|] == productName
  {
    Opening(t) + productName + Closing(t)
  }

  /** `buildTryOnPrompt`: the category's own prompt for the three known
      categories, the generic prompt for any other string. */
  function BuildTryOnPrompt(productName: string, productCategory: string): (p: string)
    ensures productCategory == "eyewear" ==> p == EyewearOpening + productName + (EyewearBody + Keep)
    ensures productCategory == "watch" ==> p == WatchOpening + productName + (WatchBody + Keep)
    ensures productCategory == "clothing" ==> p == ClothingOpening + productName + ClothingBody
    ensures productCategory !in {"eyewear", "watch", "clothing"} ==>
              p == GenericOpening + productName + (GenericBody + Keep)
  {
    Render(SelectTemplate(productCategory), productName)
  }

  /** The second-to-last character of a prompt tells the clothing template
      ("...pose.") from the others ("...lighting."); for the others, the
      character just before the shared closing sentence tells them apart
      ("glasses.", "watch.", "way."). */
  function Signature(p: string): (char, char)
    requires |p| >= |Keep| + 2
  {
    (p[|p| - 2], p[|p| - |Keep| - 2])
  }

  lemma RenderSignature(t: Template, productName: string)
    ensures |Render(t, productName)| >= |Keep| + 2
    ensures var sg := Signature(Render(t, productName));
            match t
            case EyewearTemplate => sg == ('g', 's')
            case WatchTemplate => sg == ('g', 'h')
            case ClothingTemplate => sg.0 == 'e'
            case GenericTemplate => sg == ('g', 'y')
  {
    match t
    case ClothingTemplate => ClothingSignature(productName);
    case EyewearTemplate => KeepSignature(EyewearOpening + productName, EyewearBody, 's');
    case WatchTemplate => KeepSignature(WatchOpening + productName, WatchBody, 'h');
    case GenericTemplate => KeepSignature(GenericOpening + productName, GenericBody, 'y');
  }

  lemma ClothingSignature(productName: string)
    ensures var p := Render(ClothingTemplate, productName);
            |p| >= |Keep| + 2 && p[|p| - 2] == 'e'
  {
    assert |ClothingBody| >= |Keep| + 2 && ClothingBody[|ClothingBody| - 2] == 'e';
    FromEnd(ClothingOpening + productName, ClothingBody);
  }

  lemma KeepSignature(a: string, body: string, c: char)
    requires |body| >= 2 && body[|body| - 2] == c
    ensures var p := a + (body + Keep);
            |p| >= |Keep| + 2 && Signature(p) == ('g', c)
  {
    FromEnd(a, body + Keep);
    FromEnd(body, Keep);
    assert Keep[|Keep| - 2] == 'g';
    assert (a + (body + Keep))[|a + (body + Keep)| - |Keep| - 2] == (body + Keep)[|body| - 2];
  }

  /** The second-to-last character of a concatenation is that of its tail. */
  lemma FromEnd(a: string, b: string)
    requires |b| >= 2
    ensures |a + b| == |a| + |b| && (a + b)[|a + b| - 2] == b[|b| - 2]
  {
  }

  /** A prompt determines both its template and the product name in it:
      different categories (among the three known ones and the rest) never
      yield the same prompt, and neither do different names. */
  lemma {:induction false} RenderInjective(t1: Template, n1: string, t2: Template, n2: string)
    requires Render(t1, n1) == Render(t2, n2)
    ensures t1 == t2 && n1 == n2
  {
    RenderSignature(t1, n1);
    RenderSignature(t2, n2);
    assert t1 == t2;
    var p := Render(t1, n1);
    var k := |Opening(t1)|;
    assert n1 == p[k..k + |n1|];
    assert n2 == p[k..k + |n2|];
  }

  /** Two requests get the same prompt only if they name the same product
      and their categories select the same template. */
  lemma PromptDeterminesProduct(n1: string, c1: string, n2: string, c2: string)
    requires BuildTryOnPrompt(n1, c1) == BuildTryOnPrompt(n2, c2)
    ensures n1 == n2 && SelectTemplate(c1) == SelectTemplate(c2)
  {
    RenderInjective(SelectTemplate(c1), n1, SelectTemplate(c2), n2);
  }

  // ---------------------------------------------------------------------------
  // Data URLs: the pattern ^data:(image\/\w+);base64,(.+)$
  // ---------------------------------------------------------------------------

  /** `\w`: an ASCII letter, digit or underscore. */
  predicate IsWordChar(c: char) {
    ('a' <= c <= 'z') || ('A' <= c <= 'Z') || ('0' <= c <= '9') || c == '_'
  }

  /** The characters `.` does not match: line feed, carriage return, line
      separator and paragraph separator. */
  predicate IsLineTerminator(c: char) {
    c == '\n' || c == '\r' || c == '\U{2028}' || c == '\U{2029}'
  }

  /** The first capture: `image/` followed by one or more word characters. */
  predicate IsMime(m: string) {
    |m| > 6 && m[..6] == "image/" && forall i | 6 <= i < |m| :: IsWordChar(m[i])
  }

  /** The second capture: one or more characters, none a line terminator. */
  predicate IsPayload(d: string) {
    |d| > 0 && forall i | 0 <= i < |d| :: !IsLineTerminator(d[i])
  }

  /** `data:<mime>;base64,<data>`, as the handler writes its result. */
  function DataUrl(mime: string, data: string): (u: string)
    ensures |u| == 13 + |mime| + |data|
    ensures u[..5] == "data:" && u[5..5 + |mime|] == mime
    ensures u[5 + |mime|..13 + |mime|] == ";base64," && u[13 + |mime|..] == data
  {
    "data:" + mime + ";base64," + data
  }

  /** The length of the longest prefix of word characters. */
  function WordRun(s: string): (k: nat)
    ensures k <= |s|
    ensures forall i | 0 <= i < k :: IsWordChar(s[i])
    ensures k < |s| ==> !IsWordChar(s[k])
  {
    if s == [] || !IsWordChar(s[0]) then 0
    else 1 + WordRun(s[1..])
  }

  /** `userImage.match(...)`: the two captures, or no match. After `image/`
      the greedy `\w+` takes the whole word run, since the `;` that must
      follow is not a word character. */
  function ParseDataUrl(s: string): (r: Option<(string, string)>)
    ensures r.Some? ==> IsMime(r.value.0) && IsPayload(r.value.1) && s == DataUrl(r.value.0, r.value.1)
  {
    if |s| < 11 || s[..11] != "data:image/" then None
    else
      var k := WordRun(s[11..]);
      var rest := s[11 + k..];
      if k == 0 || |rest| < 8 || rest[..8] != ";base64," then None
      else
        var d := rest[8..];
        if IsPayload(d) then
          SplitDataUrl(s, k);
          Some((s[5..11 + k], d))
        else None
  }

  /** A string that starts `data:image/`, continues with k > 0 word
      characters and then `;base64,` is the data URL of its two captures. */
  lemma SplitDataUrl(s: string, k: nat)
    requires |s| >= 11 + k + 8 && s[..11] == "data:image/" && k > 0
    requires forall i | 0 <= i < k :: IsWordChar(s[11..][i])
    requires s[11 + k..][..8] == ";base64,"
    ensures IsMime(s[5..11 + k])
    ensures s == DataUrl(s[5..11 + k], s[11 + k + 8..])
  {
    var m, rest := s[5..11 + k], s[11 + k..];
    assert m[..6] == s[..11][5..];
    assert forall i | 6 <= i < |m| :: m[i] == s[11..][i - 6];
    assert s == "data:" + m + rest;
    assert rest == ";base64," + s[11 + k + 8..];
  }

  /** Every well-formed pair is recovered from its data URL: the result the
      handler writes re-matches the pattern with the same captures. */
  lemma ParseDataUrlComplete(mime: string, data: string)
    requires IsMime(mime) && IsPayload(data)
    ensures ParseDataUrl(DataUrl(mime, data)) == Some((mime, data))
  {
    var s, k := DataUrl(mime, data), |mime| - 6;
    DataUrlParts(mime, data);
    var rest := s[11 + k..];
    assert rest[..8] == ";base64," && rest[8..] == data;
  }

  /** Where the pieces of a well-formed data URL sit: `data:image/`, the
      word run of the subtype, then `;base64,` and the payload. */
  lemma DataUrlParts(mime: string, data: string)
    requires IsMime(mime) && IsPayload(data)
    ensures var s, k := DataUrl(mime, data), |mime| - 6;
            && |s| >= 11 + k && s[..11] == "data:image/" && WordRun(s[11..]) == k
            && s[11 + k..] == ";base64," + data && s[5..11 + k] == mime
  {
    var s := DataUrl(mime, data);
    var w := mime[6..];
    var tail := ";base64," + data;
    assert mime == "image/" + w;
    assert s == "data:image/" + (w + tail);
    assert s[..11] == "data:image/";
    assert s[11..] == w + tail;
    WordRunOfWord(w, tail);
    assert s[11 + |w|..] == tail;
    assert s[5..11 + |w|] == mime;
  }

  /** The word run of a word followed by a non-word character is that word. */
  lemma {:induction false} WordRunOfWord(w: string, rest: string)
    requires forall i | 0 <= i < |w| :: IsWordChar(w[i])
    requires |rest| > 0 && !IsWordChar(rest[0])
    ensures WordRun(w + rest) == |w|
  {
    if w != [] {
      assert (w + rest)[1..] == w[1..] + rest;
      WordRunOfWord(w[1..], rest);
    }
  }

  /** A string matches exactly when it is the data URL of a well-formed pair. */
  lemma ParseDataUrlExact(s: string)
    ensures ParseDataUrl(s).Some? <==> exists m, d :: IsMime(m) && IsPayload(d) && s == DataUrl(m, d)
  {
    if exists m, d :: IsMime(m) && IsPayload(d) && s == DataUrl(m, d) {
      var m, d :| IsMime(m) && IsPayload(d) && s == DataUrl(m, d);
      ParseDataUrlComplete(m, d);
    }
  }

  // ---------------------------------------------------------------------------
  // Responses and error classification (the `catch` block)
  // ---------------------------------------------------------------------------

  /** A JSON body of the handler's responses: the plain CORS preflight
      answer, an error with an optional retry hint, or the result image. */
  datatype Body =
    | Plain(text: string)
    | ErrorBody(error: string, retryAfterSeconds: Option<nat>)
    | SuccessBody(resultImage: string)

  datatype Response = Response(status: int, body: Body)

  /** `s.includes(sub)`: `sub` occurs in `s` at some position. */
  predicate Contains(s: string, sub: string)
    decreases |s|
  {
    |sub| <= |s| && (s[..|sub|] == sub || Contains(s[1..], sub))
  }

  /** The `catch` block: an error's message is returned with status 429 when
      it mentions "429" or "quota", and with status 500 otherwise. */
  function CaughtResponse(msg: string): (r: Response)
    ensures r.body == ErrorBody(msg, None)
    ensures r.status == 429 <==> Contains(msg, "429") || Contains(msg, "quota")
    ensures r.status != 429 ==> r.status == 500
  {
    var status := if Contains(msg, "429") || Contains(msg, "quota") then 429 else 500;
    Response(status, ErrorBody(msg, None))
  }

  /** A character that is not the first one of `sub` never starts an
      occurrence of `sub`, so a prefix made only of such characters can be
      skipped when searching. */
  lemma {:induction false} SkipPrefix(a: string, x: string, sub: string)
    requires |sub| > 0
    requires forall i | 0 <= i < |a| :: a[i] != sub[0]
    ensures Contains(a + x, sub) <==> Contains(x, sub)
  {
    if a == [] {
      assert a + x == x;
    } else {
      assert (a + x)[0] == a[0];
      assert (a + x)[1..] == a[1..] + x;
      SkipPrefix(a[1..], x, sub);
    }
  }

  const MissingFieldsMessage: string := "Missing required fields: userImage and productId"
  const NoKeyMessage: string := "Gemini API key not configured"
  const InvalidImageMessage: string := "Invalid image format. Please provide a base64 encoded image."
  const RateLimitedMessage: string := "Rate limited after retries. Please try again shortly."
  const AccessDeniedMessage: string := "API access denied. Please check your Gemini API key and billing."
  const NoResponseMessage: string := "No response from Gemini API"
  const NoPartsMessage: string := "No content parts in Gemini response"
  const NoImageMessage: string := "No image was generated by Gemini"
  const ApiErrorOpening: string := "Gemini API error ("

  /** The extraction errors mention neither "429" nor "quota": each one is
      answered with status 500. */
  lemma ExtractionErrorsAre500(msg: string)
    requires msg in {NoResponseMessage, NoPartsMessage, NoImageMessage}
    ensures CaughtResponse(msg) == Response(500, ErrorBody(msg, None))
  {
    if msg == NoResponseMessage {
      NoResponseLetters();
    } else if msg == NoPartsMessage {
      NoPartsLetters();
    } else {
      NoImageLetters();
    }
    FreeOfStatusWords(msg);
  }

  /** A message with no '4' and no 'q' in it is answered with status 500. */
  lemma FreeOfStatusWords(msg: string)
    requires forall i | 0 <= i < |msg| :: msg[i] != '4' && msg[i] != 'q'
    ensures CaughtResponse(msg).status == 500
  {
    SkipPrefix(msg, [], "429");
    SkipPrefix(msg, [], "quota");
    assert msg + [] == msg;
  }

  lemma NoResponseLetters()
    ensures forall i | 0 <= i < |NoResponseMessage| :: NoResponseMessage[i] != '4' && NoResponseMessage[i] != 'q'
  {
  }

  lemma NoPartsLetters()
    ensures forall i | 0 <= i < |NoPartsMessage| :: NoPartsMessage[i] != '4' && NoPartsMessage[i] != 'q'
  {
  }

  lemma NoImageLetters()
    ensures forall i | 0 <= i < |NoImageMessage| :: NoImageMessage[i] != '4' && NoImageMessage[i] != 'q'
  {
  }

  // ---------------------------------------------------------------------------
  // Upstream outcomes and the retry loop
  // ---------------------------------------------------------------------------

  /** An HTTP status code as `fetch` reports it. */
  type HttpStatus = s: int | 200 <= s <= 599 witness 200

  /** The part of a generated reply the handler inspects. */
  datatype InlineData = InlineData(mimeType: string, data: string)
  datatype Part = Part(inlineData: Option<InlineData>)
  datatype Content = Content(parts: Option<seq<Part>>)
  datatype Candidate = Candidate(content: Option<Content>)
  datatype GeminiReply = GeminiReply(candidates: Option<seq<Candidate>>)

  /** What `response.json()` yields: the decoded reply, or the message of the
      error it raises on a body that is not JSON. */
  datatype ReplyJson = Parsed(reply: GeminiReply) | Unparseable(error: string)

  /** One call of the image model: a reply (status, text of the body, and its
      JSON reading), or the message of the error `fetch` raised. */
  datatype FetchOutcome =
    | Reply(status: HttpStatus, text: string, json: ReplyJson)
    | NetworkFailure(error: string)

  /** The request body posted on every attempt. */
  datatype GeminiRequest = GeminiRequest(prompt: string, mimeType: string, data: string, apiKey: string)

  /** `maxRetries`: up to three retries after the first attempt. */
  const MaxRetries: nat := 3

  function Pow2(n: nat): (p: nat)
    ensures p >= 1
  {
    if n == 0 then 1 else 2 * Pow2(n - 1)
  }

  /** `Math.pow(2, attempt + 1) * 1000`: the wait in milliseconds after the
      0-based attempt `attempt` was rate limited. */
  function BackoffDelay(attempt: nat): (ms: nat)
    ensures ms >= 2000
  {
    Pow2(attempt + 1) * 1000
  }

  /** The waits are 2 s, 4 s and 8 s, each twice the one before. */
  lemma BackoffSchedule(k: nat)
    ensures BackoffDelay(0) == 2000 && BackoffDelay(1) == 4000 && BackoffDelay(2) == 8000
    ensures BackoffDelay(k + 1) == 2 * BackoffDelay(k)
  {
    assert Pow2(3) == 8;
  }

  /** The loop goes round again only on status 429. */
  predicate Retryable(o: FetchOutcome) {
    o.Reply? && o.status == 429
  }

  /** The outcome of the retry loop: the last outcome (the `response` the
      rest of the handler sees), how many calls were made, and the waits in
      between, in order. */
  datatype RetryResult = RetryResult(last: FetchOutcome, attempts: nat, delays: seq<nat>)

  /** The retry loop from attempt `k` on, where `upstream(j)` is the outcome
      of the call made on attempt `j`. */
  function RetryFrom(upstream: nat -> FetchOutcome, k: nat): (r: RetryResult)
    requires k <= MaxRetries
    decreases MaxRetries - k
    ensures k + 1 <= r.attempts <= MaxRetries + 1
    ensures |r.delays| == r.attempts - 1 - k
  {
    var o := upstream(k);
    if Retryable(o) && k < MaxRetries then
      var rest := RetryFrom(upstream, k + 1);
      RetryResult(rest.last, rest.attempts, [BackoffDelay(k)] + rest.delays)
    else
      RetryResult(o, k + 1, [])
  }

  /** The shape of every run of the loop from attempt `k`: it stops at the
      first outcome that is not a 429, or after the attempt numbered
      `MaxRetries`, whichever comes first; its last outcome is that of its
      last call; and it waited `BackoffDelay(j)` after each earlier attempt
      `j`, and at no other time. */
  lemma {:induction false} RetryShape(upstream: nat -> FetchOutcome, k: nat)
    requires k <= MaxRetries
    decreases MaxRetries - k
    ensures var r := RetryFrom(upstream, k);
            && k + 1 <= r.attempts <= MaxRetries + 1
            && r.last == upstream(r.attempts - 1)
            && (forall j | k <= j < r.attempts - 1 :: Retryable(upstream(j)))
            && (r.attempts <= MaxRetries ==> !Retryable(r.last))
            && |r.delays| == r.attempts - 1 - k
            && (forall i | 0 <= i < |r.delays| :: r.delays[i] == BackoffDelay(k + i))
  {
    RetryDelays(upstream, k);
    if Retryable(upstream(k)) && k < MaxRetries {
      RetryShape(upstream, k + 1);
    }
  }

  /** The waits of a run from attempt `k` are the backoff delays of attempts
      `k`, `k + 1`, ... in order. */
  lemma {:induction false} RetryDelays(upstream: nat -> FetchOutcome, k: nat)
    requires k <= MaxRetries
    decreases MaxRetries - k
    ensures var r := RetryFrom(upstream, k);
            forall i | 0 <= i < |r.delays| :: r.delays[i] == BackoffDelay(k + i)
  {
    if Retryable(upstream(k)) && k < MaxRetries {
      RetryDelays(upstream, k + 1);
      var rest := RetryFrom(upstream, k + 1);
      var r := RetryFrom(upstream, k);
      assert forall i | 1 <= i < |r.delays| :: r.delays[i] == rest.delays[i - 1];
    }
  }

  /** The retry loop as written: at most `MaxRetries + 1` calls, going round
      again (after the backoff wait) only while the status is 429 and
      retries are left. */
  method FetchWithRetry(upstream: nat -> FetchOutcome) returns (run: RetryResult)
    ensures run == RetryFrom(upstream, 0)
  {
    var response: Option<FetchOutcome> := None;
    var calls: nat := 0;
    var delays: seq<nat> := [];
    for attempt := 0 to MaxRetries + 1
      invariant calls == attempt
      invariant attempt <= MaxRetries
      invariant var rest := RetryFrom(upstream, attempt);
                RetryFrom(upstream, 0) == RetryResult(rest.last, rest.attempts, delays + rest.delays)
    {
      response := Some(upstream(attempt));
      calls := calls + 1;
      if response.value.Reply? && response.value.status == 429 && attempt < MaxRetries {
        RetryGoesOn(upstream, attempt, delays);
        delays := delays + [BackoffDelay(attempt)];
        continue;
      }
      RetryStops(upstream, attempt, delays);
      break;
    }
    run := RetryResult(response.value, calls, delays);
  }

  /** One more round of the loop: the wait after a 429 moves from the rest
      of the run to the waits already made. */
  lemma RetryGoesOn(upstream: nat -> FetchOutcome, attempt: nat, delays: seq<nat>)
    requires attempt < MaxRetries && Retryable(upstream(attempt))
    requires var here := RetryFrom(upstream, attempt);
             RetryFrom(upstream, 0) == RetryResult(here.last, here.attempts, delays + here.delays)
    ensures var rest := RetryFrom(upstream, attempt + 1);
            RetryFrom(upstream, 0) == RetryResult(rest.last, rest.attempts, delays + [BackoffDelay(attempt)] + rest.delays)
  {
    var rest := RetryFrom(upstream, attempt + 1);
    assert delays + ([BackoffDelay(attempt)] + rest.delays) == delays + [BackoffDelay(attempt)] + rest.delays;
  }

  /** The loop leaves after the current call: that call's outcome is the
      run's last, and no wait follows it. */
  lemma RetryStops(upstream: nat -> FetchOutcome, attempt: nat, delays: seq<nat>)
    requires attempt <= MaxRetries && !(Retryable(upstream(attempt)) && attempt < MaxRetries)
    requires var here := RetryFrom(upstream, attempt);
             RetryFrom(upstream, 0) == RetryResult(here.last, here.attempts, delays + here.delays)
    ensures RetryFrom(upstream, 0) == RetryResult(upstream(attempt), attempt + 1, delays)
  {
    assert delays + [] == delays;
  }

  /** Four rate-limited replies in a row: four calls, waits of 2, 4 and 8
      seconds (14 s in all), and the last reply is the one answered. */
  lemma RateLimitedThroughout(upstream: nat -> FetchOutcome)
    requires forall k | 0 <= k <= MaxRetries :: Retryable(upstream(k))
    ensures RetryFrom(upstream, 0) == RetryResult(upstream(MaxRetries), MaxRetries + 1, [2000, 4000, 8000])
    ensures Total(RetryFrom(upstream, 0).delays) == 14000
    ensures ReplyResponse(RetryFrom(upstream, 0).last) == Response(429, ErrorBody(RateLimitedMessage, Some(30)))
  {
    RetryShape(upstream, 0);
    BackoffSchedule(0);
    var r := RetryFrom(upstream, 0);
    assert r.delays == [2000, 4000, 8000];
  }

  /** The loop stops exactly at the first call that is not rate limited,
      when that call is among the first `MaxRetries + 1`. */
  lemma StopsAtFirstNonRateLimited(upstream: nat -> FetchOutcome, j: nat)
    requires j <= MaxRetries
    requires forall k | 0 <= k < j :: Retryable(upstream(k))
    requires !Retryable(upstream(j))
    ensures RetryFrom(upstream, 0).attempts == j + 1
    ensures RetryFrom(upstream, 0).last == upstream(j)
    ensures RetryFrom(upstream, 0).delays == seq(j, i requires 0 <= i < j => BackoffDelay(i))
  {
    RetryShape(upstream, 0);
  }

  /** The sum of a list of waits. */
  function Total(xs: seq<nat>): nat {
    if xs == [] then 0 else xs[0] + Total(xs[1..])
  }

  // ---------------------------------------------------------------------------
  // Classifying the last upstream outcome
  // ---------------------------------------------------------------------------

  function Digit(d: int): (c: char)
    requires 0 <= d <= 9
    ensures '0' <= c <= '9' && c as int - '0' as int == d
  {
    ('0' as int + d) as char
  }

  /** `${status}`: the three decimal digits of a status code. */
  function StatusText(s: HttpStatus): (t: string)
    ensures |t| == 3 && forall i | 0 <= i < 3 :: '0' <= t[i] <= '9'
    ensures 100 * (t[0] as int - '0' as int) + 10 * (t[1] as int - '0' as int) + (t[2] as int - '0' as int) == s
  {
    [Digit(s / 100), Digit(s / 10 % 10), Digit(s % 10)]
  }

  /** A status prints as "429" exactly when it is 429. */
  lemma StatusTextIs429(s: HttpStatus)
    ensures StatusText(s) == "429" <==> s == 429
  {
  }

  /** The message thrown for an unexpected upstream status. */
  function ApiErrorMessage(status: HttpStatus, text: string): (msg: string)
    ensures |msg| == |ApiErrorOpening| + 6 + |text|
    ensures msg[..|ApiErrorOpening|] == ApiErrorOpening
    ensures msg[|ApiErrorOpening|..|ApiErrorOpening| + 3] == StatusText(status)
    ensures msg[|ApiErrorOpening| + 3..|ApiErrorOpening| + 6] == "): " && msg[|ApiErrorOpening| + 6..] == text
  {
    ApiErrorOpening + StatusText(status) + "): " + text
  }

  /** The words that mark an error as a rate limit occur in the thrown
      message only where they occur in the upstream body: the fixed words
      around the body have no '4' and no 'q', and the three status digits
      are followed by ')'. */
  lemma ApiErrorMentions(status: HttpStatus, text: string)
    requires status != 429
    ensures Contains(ApiErrorMessage(status, text), "429") <==> Contains(text, "429")
    ensures Contains(ApiErrorMessage(status, text), "quota") <==> Contains(text, "quota")
  {
    ApiErrorMentions429(status, text);
    ApiErrorMentionsQuota(status, text);
  }

  /** The "429" half: the opening has no '4' and the digits are not 429. */
  lemma ApiErrorMentions429(status: HttpStatus, text: string)
    requires status != 429
    ensures Contains(ApiErrorMessage(status, text), "429") <==> Contains(text, "429")
  {
    var rest := StatusText(status) + ("): " + text);
    ApiErrorOpeningLetters();
    assert ApiErrorMessage(status, text) == ApiErrorOpening + rest;
    SkipPrefix(ApiErrorOpening, rest, "429");
    StatusAndBody429(status, text);
  }

  /** After the opening: the status digits, then "): " and the body. */
  lemma StatusAndBody429(status: HttpStatus, text: string)
    requires status != 429
    ensures Contains(StatusText(status) + ("): " + text), "429") <==> Contains(text, "429")
  {
    StatusTextIs429(status);
    DigitsBeforeClose(StatusText(status), "): " + text);
    SkipPrefix("): ", text, "429");
  }

  /** The "quota" half: nothing before the body is a 'q'. */
  lemma ApiErrorMentionsQuota(status: HttpStatus, text: string)
    ensures Contains(ApiErrorMessage(status, text), "quota") <==> Contains(text, "quota")
  {
    var d := StatusText(status);
    ApiErrorOpeningLetters();
    var front := ApiErrorOpening + d + "): ";
    assert forall i | 0 <= i < |front| :: front[i] != 'q' by {
      forall i | 0 <= i < |front|
        ensures front[i] != 'q'
      {
        if i < |ApiErrorOpening| {
          assert front[i] == ApiErrorOpening[i];
        } else if i < |ApiErrorOpening| + 3 {
          assert front[i] == d[i - |ApiErrorOpening|];
        }
      }
    }
    assert ApiErrorMessage(status, text) == front + text;
    SkipPrefix(front, text, "quota");
  }

  lemma ApiErrorOpeningLetters()
    ensures forall i | 0 <= i < |ApiErrorOpening| :: ApiErrorOpening[i] != '4' && ApiErrorOpening[i] != 'q'
  {
  }

  /** Three digits other than "429" followed by ')' hold no "429" that
      starts among the digits. */
  lemma DigitsBeforeClose(d: string, y: string)
    requires |d| == 3 && d != "429"
    requires |y| > 0 && y[0] == ')'
    ensures Contains(d + y, "429") <==> Contains(y, "429")
  {
    var s0 := d + y;
    assert s0[..3] == d;
    var s1 := s0[1..];
    assert |s1| >= 3 ==> s1[..3][2] != "429"[2];
    var s2 := s1[1..];
    assert |s2| >= 3 ==> s2[..3][1] != "429"[1];
    assert s2[1..] == y;
    assert Contains(s0, "429") == Contains(s1, "429");
    assert Contains(s1, "429") == Contains(s2, "429");
  }

  /** `candidates` is present and not empty. */
  predicate HasCandidates(reply: GeminiReply) {
    reply.candidates.Some? && |reply.candidates.value| > 0
  }

  /** `candidates[0].content?.parts`. */
  function FirstParts(reply: GeminiReply): (r: Option<seq<Part>>)
    requires HasCandidates(reply)
    ensures var content := reply.candidates.value[0].content;
            r.Some? <==> content.Some? && content.value.parts.Some?
    ensures r.Some? ==> r.value == reply.candidates.value[0].content.value.parts.value
  {
    var content := reply.candidates.value[0].content;
    if content.None? then None else content.value.parts
  }

  /** `parts.find((p) => p.inlineData)`: the index of the first part that
      carries inline data, if any. */
  function FindImagePart(parts: seq<Part>): (r: Option<nat>)
    ensures r.Some? ==> r.value < |parts| && parts[r.value].inlineData.Some?
    ensures r.Some? ==> forall j | 0 <= j < r.value :: parts[j].inlineData.None?
    ensures r.None? ==> forall j | 0 <= j < |parts| :: parts[j].inlineData.None?
  {
    if parts == [] then None
    else if parts[0].inlineData.Some? then Some(0)
    else match FindImagePart(parts[1..])
      case None => None
      case Some(i) => Some(i + 1)
  }

  /** The image of a successful reply: the inline data of the first part
      that has some, in the first candidate's content; otherwise the error
      for the first thing found missing. */
  function ExtractImage(reply: GeminiReply): (r: Result<InlineData>)
    ensures r == Failure(NoResponseMessage) <==> !HasCandidates(reply)
    ensures r == Failure(NoPartsMessage) <==> HasCandidates(reply) && FirstParts(reply).None?
    ensures r.Success? <==>
              HasCandidates(reply) && FirstParts(reply).Some? &&
              exists i | 0 <= i < |FirstParts(reply).value| :: FirstParts(reply).value[i].inlineData.Some?
    ensures r.Success? ==>
              var parts := FirstParts(reply).value;
              exists i | 0 <= i < |parts| ::
                parts[i].inlineData == Some(r.value) && forall j | 0 <= j < i :: parts[j].inlineData.None?
    ensures r.Failure? ==> r.error in {NoResponseMessage, NoPartsMessage, NoImageMessage}
  {
    if !HasCandidates(reply) then Failure(NoResponseMessage)
    else match FirstParts(reply)
      case None => Failure(NoPartsMessage)
      case Some(parts) =>
        match FindImagePart(parts)
        case None => Failure(NoImageMessage)
        case Some(i) => Success(parts[i].inlineData.value)
  }

  /** What the handler answers for the loop's last outcome: the rate-limit
      and access-denied answers for those statuses, the thrown-and-caught
      error for any other failure, and the result image on success. */
  function ReplyResponse(last: FetchOutcome): (r: Response)
    ensures r.status in {200, 402, 429, 500}
    ensures r.status == 200 <==> r.body.SuccessBody?
    ensures last.NetworkFailure? ==> r == CaughtResponse(last.error)
    ensures last.Reply? && 200 <= last.status <= 299 && last.json.Unparseable? ==>
              r == CaughtResponse(last.json.error)
    ensures last.Reply? && 200 <= last.status <= 299 && last.json.Parsed? ==>
              match ExtractImage(last.json.reply)
              case Failure(msg) => r == CaughtResponse(msg)
              case Success(image) => r == Response(200, SuccessBody(DataUrl(image.mimeType, image.data)))
    ensures last.Reply? && last.status == 429 ==> r == Response(429, ErrorBody(RateLimitedMessage, Some(30)))
    ensures last.Reply? && (last.status == 402 || last.status == 403) ==>
              r == Response(402, ErrorBody(AccessDeniedMessage, None))
    ensures last.Reply? && !(200 <= last.status <= 299) && last.status !in {402, 403, 429} ==>
              r == CaughtResponse(ApiErrorMessage(last.status, last.text))
  {
    match last
    case NetworkFailure(msg) => CaughtResponse(msg)
    case Reply(status, text, json) =>
      if !(200 <= status <= 299) then
        if status == 429 then Response(429, ErrorBody(RateLimitedMessage, Some(30)))
        else if status == 402 || status == 403 then Response(402, ErrorBody(AccessDeniedMessage, None))
        else CaughtResponse(ApiErrorMessage(status, text))
      else
        match json
        case Unparseable(msg) => CaughtResponse(msg)
        case Parsed(reply) =>
          match ExtractImage(reply)
          case Failure(msg) => CaughtResponse(msg)
          case Success(image) => Response(200, SuccessBody(DataUrl(image.mimeType, image.data)))
  }

  /** An upstream reply with a failure status is answered 402 exactly for
      402 and 403; 429 (with a 30-second retry hint only for an upstream
      429) exactly for an upstream 429 or a body that mentions "429" or
      "quota"; and 500 otherwise. */
  lemma UpstreamStatusClassification(status: HttpStatus, text: string, json: ReplyJson)
    requires !(200 <= status <= 299)
    ensures var r := ReplyResponse(Reply(status, text, json));
            && (r.status == 402 <==> status == 402 || status == 403)
            && (r.status == 429 <==> status == 429 || (status != 402 && status != 403 && (Contains(text, "429") || Contains(text, "quota"))))
            && (r.body.ErrorBody? && r.body.retryAfterSeconds.Some? <==> status == 429)
            && (r.status == 429 && status == 429 ==> r.body == ErrorBody(RateLimitedMessage, Some(30)))
            && (r.status != 402 && r.status != 429 ==> r.status == 500)
  {
    if status != 429 {
      ApiErrorMentions(status, text);
    }
  }

  /** A reply is answered 200 exactly when its status is ok, its body is
      JSON and an image part was found; a failed extraction is answered
      500 with the extraction's message. */
  lemma SuccessfulReplyClassification(status: HttpStatus, text: string, json: ReplyJson)
    requires 200 <= status <= 299
    ensures var r := ReplyResponse(Reply(status, text, json));
            && (r.status == 200 <==> json.Parsed? && ExtractImage(json.reply).Success?)
            && (json.Parsed? && ExtractImage(json.reply).Failure? ==>
                  r == Response(500, ErrorBody(ExtractImage(json.reply).error, None)))
  {
    match json
    case Unparseable(_) =>
    case Parsed(reply) =>
      var e := ExtractImage(reply);
      if e.Failure? {
        ExtractionErrorsAre500(e.error);
      }
  }

  /** The result image of a successful answer matches the request pattern
      again with the reply's mime type and data, when those have the form
      the pattern accepts. */
  lemma ResultImageReparses(last: FetchOutcome)
    requires last.Reply? && last.json.Parsed? && ExtractImage(last.json.reply).Success?
    requires var image := ExtractImage(last.json.reply).value;
             IsMime(image.mimeType) && IsPayload(image.data)
    requires 200 <= last.status <= 299
    ensures ReplyResponse(last).body.SuccessBody?
    ensures var image := ExtractImage(last.json.reply).value;
            ParseDataUrl(ReplyResponse(last).body.resultImage) == Some((image.mimeType, image.data))
  {
    var image := ExtractImage(last.json.reply).value;
    ParseDataUrlComplete(image.mimeType, image.data);
  }

  // ---------------------------------------------------------------------------
  // Admission: preflight, required fields, key and image format
  // ---------------------------------------------------------------------------

  /** The fields read from the request body; absent fields are `None`. */
  datatype Fields = Fields(userImage: Option<string>, productId: Option<string>,
                           productName: Option<string>, productCategory: Option<string>)

  /** `req.json()`: the fields, or the message of the error raised on a body
      that is not JSON. */
  datatype RequestBody = Json(fields: Fields) | Malformed(error: string)

  datatype Request = Request(httpMethod: string, body: RequestBody)

  /** Either the handler answers before calling the model, or it goes on to
      call it with this request body. */
  datatype Admission = Answer(response: Response) | Proceed(outgoing: GeminiRequest)

  /** JavaScript truthiness of an optional string: present and not empty. */
  predicate Truthy(v: Option<string>) {
    v.Some? && v.value != ""
  }

  /** A template-literal interpolation of an optional string. */
  function Interpolated(v: Option<string>): string {
    if v.Some? then v.value else "undefined"
  }

  /** Everything the handler does before the first call: answer the CORS
      preflight, reject a body that is not JSON, reject missing fields,
      a missing key and an image that is not a base64 data URL, in this
      order; otherwise build the prompt and split the data URL. */
  function Admit(req: Request, apiKey: Option<string>): (a: Admission)
    ensures a.Proceed? <==>
              && req.httpMethod != "OPTIONS" && req.body.Json?
              && Truthy(req.body.fields.userImage) && Truthy(req.body.fields.productId)
              && Truthy(apiKey) && ParseDataUrl(req.body.fields.userImage.value).Some?
    ensures a.Proceed? ==>
              var f := req.body.fields;
              && a.outgoing.prompt == BuildTryOnPrompt(Interpolated(f.productName), Interpolated(f.productCategory))
              && IsMime(a.outgoing.mimeType) && IsPayload(a.outgoing.data)
              && DataUrl(a.outgoing.mimeType, a.outgoing.data) == f.userImage.value
              && a.outgoing.apiKey == apiKey.value
    ensures req.httpMethod == "OPTIONS" ==> a == Answer(Response(200, Plain("ok")))
    ensures req.httpMethod != "OPTIONS" && req.body.Malformed? ==>
              a == Answer(CaughtResponse(req.body.error))
    ensures && req.httpMethod != "OPTIONS" && req.body.Json?
            && Truthy(req.body.fields.userImage) && Truthy(req.body.fields.productId) && !Truthy(apiKey)
            ==> a == Answer(Response(500, ErrorBody(NoKeyMessage, None)))
  {
    if req.httpMethod == "OPTIONS" then Answer(Response(200, Plain("ok")))
    else match req.body
      case Malformed(msg) => Answer(CaughtResponse(msg))
      case Json(f) =>
        if !Truthy(f.userImage) || !Truthy(f.productId) then
          Answer(Response(400, ErrorBody(MissingFieldsMessage, None)))
        else if !Truthy(apiKey) then
          Answer(Response(500, ErrorBody(NoKeyMessage, None)))
        else
          var prompt := BuildTryOnPrompt(Interpolated(f.productName), Interpolated(f.productCategory));
          match ParseDataUrl(f.userImage.value)
          case None => Answer(Response(400, ErrorBody(InvalidImageMessage, None)))
          case Some((mimeType, data)) => Proceed(GeminiRequest(prompt, mimeType, data, apiKey.value))
  }

  /** A request without a user image or product id is answered 400 whatever
      the key, so before the key is looked at. */
  lemma MissingFieldsComeFirst(req: Request, apiKey: Option<string>)
    requires req.httpMethod != "OPTIONS" && req.body.Json?
    requires !Truthy(req.body.fields.userImage) || !Truthy(req.body.fields.productId)
    ensures Admit(req, apiKey) == Answer(Response(400, ErrorBody(MissingFieldsMessage, None)))
  {
  }

  /** With both fields and the key present, the request is answered 400 for
      a bad image exactly when its user image is not a data URL of an image
      in base64; otherwise the call carries the two captures. */
  lemma ImageFormatDecides(req: Request, apiKey: Option<string>)
    requires req.httpMethod != "OPTIONS" && req.body.Json?
    requires Truthy(req.body.fields.userImage) && Truthy(req.body.fields.productId) && Truthy(apiKey)
    ensures var image := req.body.fields.userImage.value;
            && (Admit(req, apiKey) == Answer(Response(400, ErrorBody(InvalidImageMessage, None)))
                <==> !exists m, d :: IsMime(m) && IsPayload(d) && image == DataUrl(m, d))
            && (Admit(req, apiKey).Proceed? ==>
                  ParseDataUrl(image) == Some((Admit(req, apiKey).outgoing.mimeType, Admit(req, apiKey).outgoing.data)))
  {
    ParseDataUrlExact(req.body.fields.userImage.value);
  }

  // ---------------------------------------------------------------------------
  // The whole handler
  // ---------------------------------------------------------------------------

  /** One request end to end. `apiKey` is the configured key and
      `upstream(j)` the outcome of the model call on attempt `j`. Returns the
      response, the request body posted to the model (if any call was made),
      the number of calls and the waits between them. */
  method Serve(req: Request, apiKey: Option<string>, upstream: nat -> FetchOutcome)
    returns (response: Response, sent: Option<GeminiRequest>, calls: nat, delays: seq<nat>)
    ensures Admit(req, apiKey).Answer? ==>
              response == Admit(req, apiKey).response && sent.None? && calls == 0 && delays == []
    ensures Admit(req, apiKey).Proceed? ==>
              var run := RetryFrom(upstream, 0);
              && sent == Some(Admit(req, apiKey).outgoing)
              && calls == run.attempts && delays == run.delays
              && response == ReplyResponse(run.last)
  {
    match Admit(req, apiKey)
    case Answer(r) =>
      response, sent, calls, delays := r, None, 0, [];
    case Proceed(outgoing) =>
      var run := FetchWithRetry(upstream);
      response := ReplyResponse(run.last);
      sent, calls, delays := Some(outgoing), run.attempts, run.delays;
  }
}

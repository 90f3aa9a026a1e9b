/** The `generate-shareable-quote` edge function: the caller is authenticated first,
    then the body is validated, then the gateway's answer becomes the quote. */
module Quote {
  import opened Common

  // ---------------------------------------------------------------------------
  // Input

  const MaxLength: nat := 500

  /** `validateInput`: the error of the first rule broken, or the trimmed text. */
  function ValidateInput(body: Json): (r: Result<string, string>)
    ensures r.Ok? <==> (IsObjectBody(body) && StringField(body, "entryText").Some?
      && !AllSpace(StringField(body, "entryText").value)
      && Utf16Length(StringField(body, "entryText").value) <= MaxLength)
    ensures !IsObjectBody(body) ==> r == Err("Invalid input: expected an object")
    ensures IsObjectBody(body) && (StringField(body, "entryText").None? || StringField(body, "entryText") == Some([]))
      ==> r == Err("Invalid input: entryText must be a non-empty string")
    ensures IsObjectBody(body) && StringField(body, "entryText").Some? && StringField(body, "entryText").value != []
      && AllSpace(StringField(body, "entryText").value)
      ==> r == Err("Invalid input: entryText cannot be empty")
    ensures r.Ok? ==> r.value == Trim(StringField(body, "entryText").value) && r.value != []
  {
    if !IsObjectBody(body) then Err("Invalid input: expected an object")
    else
      match StringField(body, "entryText")
      case None => Err("Invalid input: entryText must be a non-empty string")
      case Some(text) =>
        TrimEmptyIffAllSpace(text);
        if text == [] then Err("Invalid input: entryText must be a non-empty string")
        else if Trim(text) == [] then Err("Invalid input: entryText cannot be empty")
        else if Utf16Length(text) > MaxLength then Err("Invalid input: entryText must be less than 500 characters")
        else Ok(Trim(text))
  }

  /** The text handed to the gateway has no blanks left to trim. */
  lemma AcceptedTextIsTrimmed(body: Json)
    requires ValidateInput(body).Ok?
    ensures Trim(ValidateInput(body).value) == ValidateInput(body).value
  {
    TrimTwice(StringField(body, "entryText").value);
  }

  /** Trimming is idempotent. */
  lemma TrimTwice(s: string)
    ensures Trim(Trim(s)) == Trim(s)
  {
    var t := Trim(s);
    assert t == [] || t[0] == TrimStart(s)[0];
    TrimStartClean(t);
    TrimEndClean(t);
  }

  /** The limit is on UTF-16 code units: text made only of characters outside the Basic
      Multilingual Plane (most emoji) is refused from 251 characters on. */
  lemma {:induction false} AstralCountsTwice(s: string)
    requires forall i :: 0 <= i < |s| ==> s[i] as int >= 0x10000
    ensures Utf16Length(s) == 2 * |s|
  {
    if s != [] {
      AstralCountsTwice(s[..|s| - 1]);
    }
  }

  // ---------------------------------------------------------------------------
  // The handler

  datatype QuoteReply = Failure(status: int, error: string) | Quote(quote: string)

  /** A reply and whether the AI gateway was called. */
  datatype Handled = Handled(reply: QuoteReply, aiCalled: bool)

  /** The request handler. `authorization` is the header, `userFound` the outcome of the
      token lookup, `body` the parsed JSON (`None` when it does not parse), `apiKey`
      whether the key is configured and `ai` the gateway's reply. */
  function GenerateQuote(authorization: Option<string>, userFound: bool, body: Option<Json>,
                         apiKey: bool, ai: AiReply): (h: Handled)
    ensures authorization.None? ==> h == Handled(Failure(401, "Missing authorization header"), false)
    ensures authorization.Some? && !userFound ==> h == Handled(Failure(401, "Unauthorized"), false)
    ensures authorization.Some? && userFound && body.Some? && ValidateInput(body.value).Err?
      ==> h == Handled(Failure(400, ValidateInput(body.value).error), false)
    ensures h.aiCalled <==> (authorization.Some? && userFound && body.Some?
      && ValidateInput(body.value).Ok? && apiKey)
    ensures authorization.Some? && userFound && body.Some? && ValidateInput(body.value).Ok? && !apiKey
      ==> h.reply == Failure(500, "AI service not configured")
    ensures h.aiCalled && !ReplyOk(ai) ==> h.reply.Failure? && h.reply.status == GatewayFailureStatus(ai.status, 503)
    ensures h.reply.Quote? <==> (h.aiCalled && ReplyOk(ai) && ai.content.Some? && !AllSpace(ai.content.value))
    ensures h.reply.Quote? ==> h.reply.quote == Trim(ai.content.value) && h.reply.quote != []
    ensures h.aiCalled && ReplyOk(ai) && !h.reply.Quote? ==> h.reply == Failure(500, "Failed to generate quote")
  {
    if authorization.None? then Handled(Failure(401, "Missing authorization header"), false)
    else if !userFound then Handled(Failure(401, "Unauthorized"), false)
    else if body.None? then Handled(Failure(500, "Unexpected end of JSON input"), false)
    else
      match ValidateInput(body.value)
      case Err(e) => Handled(Failure(400, e), false)
      case Ok(_) =>
        if !apiKey then Handled(Failure(500, "AI service not configured"), false)
        else if !ReplyOk(ai) then
          if ai.status == 429 then Handled(Failure(429, "AI service rate limit reached. Please try again later."), true)
          else if ai.status == 402 then Handled(Failure(402, "AI service payment required. Please contact support."), true)
          else Handled(Failure(503, "AI service temporarily unavailable"), true)
        else if ai.content.None? then Handled(Failure(500, "Failed to generate quote"), true)
        else
          TrimEmptyIffAllSpace(ai.content.value);
          if Trim(ai.content.value) == [] then Handled(Failure(500, "Failed to generate quote"), true)
          else Handled(Quote(Trim(ai.content.value)), true)
  }
}

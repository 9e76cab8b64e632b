/** The chat widget of static/js/script.js: one session holding the
    attachment slot, the in-flight flag, the input box and the transcript,
    changed by the page's event handlers. A network request is not run: a
    submit records the request it issues, and a later Settle event delivers
    its outcome. */
module Widget {
  import opened Text

  datatype Role = User | Bot

  /** A transcript entry: a message with its role, text and optional image,
      or the "assistant is typing" placeholder. */
  datatype Entry = Message(role: Role, text: string, image: Option<string>) | Typing

  /** The JSON body the widget posts: to /api/chat or to /api/analyze-image. */
  datatype Request = ChatRequest(message: string) | ImageRequest(image: string, query: string)

  /** How a request settles. Answered: the response parsed as JSON, with or
      without a `response` field (an error body from the server has none).
      Failed: fetch rejected or the body was not JSON. */
  datatype Outcome = Answered(response: Option<string>) | Failed

  const DefaultQuery: string := "Please analyze this image"
  const ChatApology: string := "Sorry, something went wrong. Please try again."
  const ImageApology: string := "Sorry, something went wrong with the image analysis. Please try again."
  const IdlePlaceholder: string := "Type your health question here..."
  const ImagePlaceholder: string := "Ask about this image or type a health question..."

  /** JavaScript truthiness of a string variable that may hold null. */
  predicate Truthy(s: Option<string>) {
    s.Some? && s.value != ""
  }

  /** `query || "Please analyze this image"`: never empty, and the typed
      query itself whenever there is one. */
  function ImageQuery(query: string): (r: string)
    ensures r != ""
    ensures query != "" ==> r == query
    ensures query == "" ==> r == DefaultQuery
  {
    if query == "" then DefaultQuery else query
  }

  /** What every request the widget issues satisfies: a chat message is
      trimmed and not empty, an image request has an image and a query. */
  predicate WellFormed(req: Request) {
    match req
    case ChatRequest(m) => m != "" && IsTrimmed(m, JsWhitespace)
    case ImageRequest(img, q) => img != "" && q != ""
  }

  /** The request an accepted submit issues, from the trimmed input and the
      attachment: the image flow when an attachment is set, the text flow
      otherwise. */
  function RequestFor(message: string, attachment: Option<string>): (r: Request)
    requires IsTrimmed(message, JsWhitespace) && (message != "" || Truthy(attachment))
    ensures WellFormed(r)
    ensures r.ImageRequest? <==> Truthy(attachment)
    ensures r.ChatRequest? ==> r.message == message
    ensures r.ImageRequest? ==> r.image == attachment.value && (message != "" ==> r.query == message)
    ensures r.ImageRequest? ==> r.query == ImageQuery(message)
    ensures r.ImageRequest? && message == "" ==> r.query == DefaultQuery
  {
    if Truthy(attachment) then ImageRequest(attachment.value, ImageQuery(message))
    else ChatRequest(message)
  }

  /** The user's turn shown for a request: the text the request carries and,
      in the image flow, the image it sends. */
  function UserTurn(req: Request): (e: Entry)
    ensures e.Message? && e.role == User
    ensures req.ChatRequest? ==> e.text == req.message && e.image == None
    ensures req.ImageRequest? ==> e.text == req.query && e.image == Some(req.image)
  {
    match req
    case ChatRequest(m) => Message(User, m, None)
    case ImageRequest(img, q) => Message(User, q, Some(img))
  }

  /** The fixed, flow-specific apology shown when a request fails. */
  function Apology(req: Request): (r: string)
    ensures r == ChatApology || r == ImageApology
    ensures r == ChatApology <==> req.ChatRequest?
  {
    if req.ChatRequest? then ChatApology else ImageApology
  }

  /** The assistant's text once a request settles: the response verbatim, an
      empty text when the parsed body had no `response` field (setting
      textContent to undefined renders nothing), or the apology. */
  function ReplyText(req: Request, outcome: Outcome): (r: string)
    ensures outcome == Answered(None) ==> r == ""
    ensures outcome.Answered? && outcome.response.Some? ==> r == outcome.response.value
    ensures outcome.Failed? ==> r == Apology(req)
  {
    match outcome
    case Answered(response) => if response.Some? then response.value else ""
    case Failed => Apology(req)
  }

  /** `s` with its first `x` taken out; `s` itself when there is none
      (what `getElementById(...).remove()` does to the transcript). */
  function RemoveFirst(s: seq<Entry>, x: Entry): (r: seq<Entry>)
    ensures x !in s ==> r == s
    ensures x in s ==> |r| == |s| - 1 && multiset(r) == multiset(s) - multiset{x}
    decreases |s|
  {
    if |s| == 0 then []
    else
      assert s == [s[0]] + s[1..];
      if s[0] == x then s[1..] else [s[0]] + RemoveFirst(s[1..], x)
  }

  /** The first `x` is the one taken out, and every other entry keeps its
      place in the order. */
  lemma {:induction false} RemoveFirstSplit(a: seq<Entry>, x: Entry, b: seq<Entry>)
    requires x !in a
    ensures RemoveFirst(a + [x] + b, x) == a + b
    decreases |a|
  {
    if |a| > 0 {
      var rest := a[1..] + [x] + b;
      calc {
        RemoveFirst(a + [x] + b, x);
        { assert a + [x] + b == [a[0]] + rest; }
        RemoveFirst([a[0]] + rest, x);
        { RemoveFirstPast(a[0], rest, x); }
        [a[0]] + RemoveFirst(rest, x);
        { RemoveFirstSplit(a[1..], x, b); }
        [a[0]] + (a[1..] + b);
        { assert a == [a[0]] + a[1..]; }
        a + b;
      }
    } else {
      assert a + [x] + b == [x] + b;
    }
  }

  /** An entry other than `x` at the front stays at the front. */
  lemma RemoveFirstPast(h: Entry, t: seq<Entry>, x: Entry)
    requires h != x
    ensures RemoveFirst([h] + t, x) == [h] + RemoveFirst(t, x)
  {
    assert ([h] + t)[1..] == t;
  }

  /** Taking the only `x` off the end gives back what came before it. */
  lemma RemoveFirstAtEnd(s: seq<Entry>, x: Entry)
    requires x !in s
    ensures RemoveFirst(s + [x], x) == s
  {
    RemoveFirstSplit(s, x, []);
    assert s + [x] + [] == s + [x];
  }

  /** The placeholder is the last entry and appears nowhere else. */
  predicate EndsWithPlaceholder(t: seq<Entry>) {
    |t| > 0 && t[|t| - 1] == Typing && Typing !in t[..|t| - 1]
  }

  class ChatWidget {
    /** `base64Image`: the data URL of the attached image, or null. */
    var attachment: Option<string>
    /** `isWaitingForResponse`. */
    var waiting: bool
    /** `userInput.value`. */
    var input: string
    /** `userInput.placeholder`. */
    var placeholder: string
    /** The entries of `chatMessages`, in order. */
    var transcript: seq<Entry>
    /** The request whose response is being awaited, if any. */
    var pending: Option<Request>

    /** The session invariant: exactly one placeholder, the last entry, while
        a request is outstanding, and none otherwise. */
    ghost predicate Valid()
      reads this
    {
      (waiting <==> pending.Some?) &&
      (waiting ==> EndsWithPlaceholder(transcript) && WellFormed(pending.value)) &&
      (!waiting ==> Typing !in transcript)
    }

    /** The session when the page has loaded: nothing attached, nothing
        outstanding, an empty transcript. */
    constructor (initialPlaceholder: string)
      ensures Valid()
      ensures attachment == None && !waiting && input == "" && transcript == [] && pending == None
      ensures placeholder == initialPlaceholder
    {
      attachment := None;
      waiting := false;
      input := "";
      placeholder := initialPlaceholder;
      transcript := [];
      pending := None;
    }

    /** Whether a submit is accepted: no request outstanding, and some text
        or an attachment. */
    predicate Accepts()
      reads this
      ensures waiting ==> !Accepts()
      ensures Trim(input, JsWhitespace) == "" && !Truthy(attachment) ==> !Accepts()
      ensures Accepts() ==> WellFormed(RequestFor(Trim(input, JsWhitespace), attachment))
    {
      !waiting && (Trim(input, JsWhitespace) != "" || Truthy(attachment))
    }

    /** The user types into the input box. */
    method EditInput(text: string)
      requires Valid()
      modifies this`input
      ensures Valid() && input == text
    {
      input := text;
    }

    /** The FileReader of the image `change` handler has produced a data URL:
        it becomes the attachment and the placeholder says an image is
        attached. Allowed while a request is outstanding. */
    method ImageLoaded(dataUrl: string)
      requires Valid()
      modifies this`attachment, this`placeholder
      ensures Valid()
      ensures attachment == Some(dataUrl) && placeholder == ImagePlaceholder
    {
      attachment := Some(dataUrl);
      placeholder := ImagePlaceholder;
    }

    /** resetImageUpload: the same state whatever came before, so calling it
        twice is calling it once. */
    method ResetImageUpload()
      modifies this`attachment, this`placeholder
      ensures attachment == None && placeholder == IdlePlaceholder
    {
      attachment := None;
      placeholder := IdlePlaceholder;
    }

    /** addMessage: appends one message; the image is shown only when the
        image argument is truthy. */
    method AddMessage(content: string, isUser: bool, imageUrl: Option<string>)
      modifies this`transcript
      ensures transcript == old(transcript) +
        [Message(if isUser then User else Bot, content, if Truthy(imageUrl) then imageUrl else None)]
    {
      var image := if Truthy(imageUrl) then imageUrl else None;
      transcript := transcript + [Message(if isUser then User else Bot, content, image)];
    }

    /** showTypingIndicator: appends the placeholder. */
    method ShowTypingIndicator()
      modifies this`transcript
      ensures transcript == old(transcript) + [Typing]
    {
      transcript := transcript + [Typing];
    }

    /** removeTypingIndicator: removes the first placeholder, and changes
        nothing when there is none. */
    method RemoveTypingIndicator()
      modifies this`transcript
      ensures transcript == RemoveFirst(old(transcript), Typing)
      ensures Typing !in old(transcript) ==> transcript == old(transcript)
    {
      transcript := RemoveFirst(transcript, Typing);
    }

    /** The submit handler: a no-op that changes nothing when a request is
        outstanding or there is neither text nor attachment; otherwise the
        image flow or the text flow runs up to its first await, and the
        request it posts is returned. */
    method Submit() returns (sent: Option<Request>)
      requires Valid()
      modifies this
      ensures Valid()
      ensures !old(Accepts()) ==> sent == None && unchanged(this)
      ensures old(Accepts()) ==>
        var req := RequestFor(Trim(old(input), JsWhitespace), old(attachment));
        sent == Some(req) && pending == sent && waiting && input == "" &&
        transcript == old(transcript) + [UserTurn(req), Typing] &&
        attachment == old(attachment) && placeholder == old(placeholder)
    {
      var message := Trim(input, JsWhitespace);
      if (message == "" && !Truthy(attachment)) || waiting {
        sent := None;
        return;
      }
      var req;
      if Truthy(attachment) {
        req := HandleImageSubmission(message);
      } else {
        req := HandleTextSubmission(message);
      }
      sent := Some(req);
    }

    /** handleTextSubmission up to its await: the user's turn, input cleared,
        placeholder shown, flag raised, request posted. */
    method HandleTextSubmission(message: string) returns (req: Request)
      requires Valid() && !waiting
      requires message != "" && IsTrimmed(message, JsWhitespace)
      modifies this
      ensures Valid()
      ensures req == ChatRequest(message) && pending == Some(req) && waiting && input == ""
      ensures transcript == old(transcript) + [Message(User, message, None), Typing]
      ensures attachment == old(attachment) && placeholder == old(placeholder)
    {
      AddMessage(message, true, None);
      input := "";
      ShowTypingIndicator();
      waiting := true;
      req := ChatRequest(message);
      pending := Some(req);
    }

    /** handleImageSubmission up to its await: the user's turn carries the
        query (or the default phrase) and the attached image, and the same
        two go into the request. */
    method HandleImageSubmission(query: string) returns (req: Request)
      requires Valid() && !waiting && Truthy(attachment)
      modifies this
      ensures Valid()
      ensures req == ImageRequest(old(attachment).value, ImageQuery(query))
      ensures pending == Some(req) && waiting && input == ""
      ensures transcript == old(transcript) + [Message(User, ImageQuery(query), old(attachment)), Typing]
      ensures attachment == old(attachment) && placeholder == old(placeholder)
    {
      AddMessage(ImageQuery(query), true, attachment);
      input := "";
      ShowTypingIndicator();
      waiting := true;
      req := ImageRequest(attachment.value, ImageQuery(query));
      pending := Some(req);
    }

    /** The rest of either flow once its request settles: the placeholder
        goes, the reply or the apology is appended, the flag is lowered. The
        attachment is cleared only when an image request was answered; after
        a failure it stays. Earlier entries are not touched. */
    method Settle(outcome: Outcome)
      requires Valid() && waiting
      modifies this
      ensures Valid() && !waiting && pending == None
      ensures transcript == old(transcript)[..|old(transcript)| - 1] +
        [Message(Bot, ReplyText(old(pending).value, outcome), None)]
      ensures input == old(input)
      ensures old(pending).value.ImageRequest? && outcome.Answered? ==>
        attachment == None && placeholder == IdlePlaceholder
      ensures !(old(pending).value.ImageRequest? && outcome.Answered?) ==>
        attachment == old(attachment) && placeholder == old(placeholder)
    {
      var req := pending.value;
      ghost var before := transcript[..|transcript| - 1];
      assert transcript == before + [Typing];
      RemoveFirstAtEnd(before, Typing);
      RemoveTypingIndicator();
      match outcome {
        case Answered(response) =>
          AddMessage(if response.Some? then response.value else "", false, None);
          if req.ImageRequest? {
            ResetImageUpload();
          }
        case Failed =>
          AddMessage(Apology(req), false, None);
      }
      waiting := false;
      pending := None;
    }
  }

  /** A text question is answered: the transcript gains exactly the
      question and the answer, and a second submit while waiting issues
      nothing. */
  method TextScenario(question: string, reply: string)
    requires question != "" && IsTrimmed(question, JsWhitespace)
  {
    var w := new ChatWidget(IdlePlaceholder);
    w.EditInput(question);
    TrimOfTrimmed(question, JsWhitespace);
    var sent := w.Submit();
    assert sent == Some(ChatRequest(question));
    var again := w.Submit();
    assert again == None;
    w.Settle(Answered(Some(reply)));
    assert w.transcript == [Message(User, question, None), Message(Bot, reply, None)];
    assert !w.waiting && w.input == "";
  }

  /** An image sent with no text: the user's turn shows the default phrase
      and the image; on an answer the attachment is cleared, on a failure it
      stays. */
  method ImageScenario(dataUrl: string, answered: bool)
    requires dataUrl != ""
  {
    var w := new ChatWidget(IdlePlaceholder);
    w.ImageLoaded(dataUrl);
    assert Trim("", JsWhitespace) == "";
    var sent := w.Submit();
    assert sent == Some(ImageRequest(dataUrl, DefaultQuery));
    assert w.transcript == [Message(User, DefaultQuery, Some(dataUrl)), Typing];
    if answered {
      w.Settle(Answered(Some("A salad")));
      assert w.attachment == None;
    } else {
      w.Settle(Failed);
      assert w.attachment == Some(dataUrl);
      assert w.transcript[1] == Message(Bot, ImageApology, None);
    }
  }
}

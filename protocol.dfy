/** The widget and the backend together: every request the widget can post
    passes the backend's 400 checks, and the image the widget attaches
    reaches the model as its base64 text. */
module Protocol {
  import opened Text
  import Backend
  import Widget

  /** The JSON body of a widget request as the backend's `request.json`
      reads it. */
  function Body(req: Widget.Request): (body: map<string, string>)
    ensures req.ChatRequest? ==> body == map["message" := req.message]
    ensures req.ImageRequest? ==> body == map["image" := req.image, "query" := req.query]
  {
    match req
    case ChatRequest(m) => map["message" := m]
    case ImageRequest(img, q) => map["image" := img, "query" := q]
  }

  /** No request the widget issues is answered with a 400: a chat message is
      never empty, and an image request always has an image and a query (the
      widget falls back to its default phrase). The chat message reaches the
      health prompt verbatim, the query the image prompt. */
  lemma WidgetRequestsPassValidation(req: Widget.Request)
    requires Widget.WellFormed(req)
    ensures req.ChatRequest? ==>
      Backend.Chat(Body(req)) == Backend.Forward(Backend.HealthPrompt(req.message))
    ensures req.ImageRequest? ==>
      Backend.AnalyzeImage(Body(req)).Forward? &&
      Backend.AnalyzeImage(Body(req)).call.prompt == Backend.ImagePrompt(req.query)
  {
  }

  /** The empty-query 400 of analyze_image cannot be reached from the
      widget: whatever the input, an accepted image submit posts a
      non-empty query. */
  lemma ImageQueryNeverRejected(message: string, attachment: Option<string>)
    requires IsTrimmed(message, JsWhitespace) && Widget.Truthy(attachment)
    ensures Backend.AnalyzeImage(Body(Widget.RequestFor(message, attachment))).Forward?
  {
  }

  /** What FileReader.readAsDataURL yields for a file: the data URL of
      section 3 of RFC 2397 with a media type and base64 data. */
  function FileDataUrl(mediaType: string, base64: string): string {
    "data:" + mediaType + ";base64," + base64
  }

  /** A media type has no comma (a comma is a special character of
      RFC 2045) and base64 text has none, so the payload the backend
      decodes is exactly the base64 text the browser produced. */
  lemma AttachedImageReachesModel(mediaType: string, base64: string, query: string)
    requires ',' !in mediaType && ',' !in base64 && query != ""
    ensures var r := Backend.AnalyzeImage(Body(Widget.ImageRequest(FileDataUrl(mediaType, base64), query)));
      r.Forward? && r.call.payload == base64
  {
    var header := "data:" + mediaType + ";base64";
    assert FileDataUrl(mediaType, base64) == header + [','] + base64 + [];
    assert ',' !in header;
    Backend.PayloadBetweenCommas(header, base64, []);
  }
}

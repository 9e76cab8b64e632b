/** The Flask backend of app.py without Flask and without the model calls:
    cleaning of the model's answer, the two prompt builders, the 400
    checks of both endpoints and the extraction of the payload from the
    data URL an image arrives as. */
module Backend {
  import opened Text

  // ---------------------------------------------------------------------
  // clean_ai_response
  // ---------------------------------------------------------------------

  /** The third replacement's pattern: '\n\d.' in a non-raw Python literal,
      where "\d" is not an escape, so it is the four characters newline,
      backslash, 'd', '.'. */
  const LiteralMarker: string := "\n\\d."

  /** The replacement: newline followed by a bullet (U+2022). */
  const Bullet: string := "\n\U{2022}"

  /** The first two replacements: '**' and then '*' replaced by nothing.
      No asterisk is left, and every other character keeps its count. */
  function StripMarkdown(text: string): (r: string)
    ensures '*' !in r
    ensures multiset(r) == multiset(text)['*' := 0]
  {
    var pairs := ReplaceAll(text, "**", "");
    ReplaceSingleIsWithout(pairs, '*');
    WithoutAfterPairDeletion(text, '*');
    assert multiset(Without(text, '*'))['*'] == 0;
    ReplaceAll(pairs, "*", "")
  }

  /** Together the first two replacements delete every asterisk and keep all
      other characters in order. */
  lemma StripMarkdownIsWithout(text: string)
    ensures StripMarkdown(text) == Without(text, '*')
  {
    ReplaceSingleIsWithout(ReplaceAll(text, "**", ""), '*');
    WithoutAfterPairDeletion(text, '*');
  }

  /** The literal pattern cannot survive its own replacement: it cannot
      overlap itself, and the replacement cannot form a new occurrence with
      what surrounds it. */
  lemma {:induction false} LiteralMarkerReplaced(s: string)
    ensures Avoids(ReplaceAll(s, LiteralMarker, Bullet), LiteralMarker)
    decreases |s|
  {
    if |s| > 0 {
      if LiteralMarker <= s {
        var t := ReplaceAll(s[4..], LiteralMarker, Bullet);
        LiteralMarkerReplaced(s[4..]);
        var r := Bullet + t;
        assert r[1] != LiteralMarker[1];
        assert r[1..][0] != LiteralMarker[0];
        assert r[1..][1..] == t;
      } else {
        var t := ReplaceAll(s[1..], LiteralMarker, Bullet);
        LiteralMarkerReplaced(s[1..]);
        var r := [s[0]] + t;
        assert r[1..] == t;
        if LiteralMarker <= r {
          assert LiteralMarker[1..] <= t;
          ReplacePrefixFromInput(s[1..], LiteralMarker, Bullet, LiteralMarker[1..]);
          assert false;
        }
      }
    }
  }

  /** clean_ai_response as written: the three literal replacements, then
      Python's strip(). The result has no asterisk, no whitespace at either
      end and no occurrence of the literal pattern. */
  function CleanAiResponse(text: string): (r: string)
    ensures '*' !in r
    ensures IsTrimmed(r, PyWhitespace)
    ensures Avoids(r, LiteralMarker)
  {
    var stripped := StripMarkdown(text);
    var replaced := ReplaceAll(stripped, LiteralMarker, Bullet);
    LiteralMarkerReplaced(stripped);
    TrimKeepsAvoids(replaced, PyWhitespace, LiteralMarker);
    Trim(replaced, PyWhitespace)
  }

  /** A string without asterisks and backslashes, with no whitespace at its
      ends, is left unchanged by the cleaner. */
  lemma CleanFixedPoint(s: string)
    requires '*' !in s && '\\' !in s && IsTrimmed(s, PyWhitespace)
    ensures CleanAiResponse(s) == s
  {
    StripMarkdownAbsent(s);
    AvoidsByMissingChar(s, LiteralMarker, 1);
    ReplaceAbsent(s, LiteralMarker, Bullet);
    TrimOfTrimmed(s, PyWhitespace);
  }

  /** Cleaning is idempotent. */
  lemma CleanIdempotent(text: string)
    ensures CleanAiResponse(CleanAiResponse(text)) == CleanAiResponse(text)
  {
    var c := CleanAiResponse(text);
    StripMarkdownAbsent(c);
    ReplaceAbsent(c, LiteralMarker, Bullet);
    TrimOfTrimmed(c, PyWhitespace);
  }

  /** As written, a numbered list item survives cleaning untouched: the
      literal pattern never matches a newline followed by a digit. */
  lemma CleanKeepsNumberedItem(head: string, d: char, item: string)
    requires IsDigit(d)
    requires '*' !in head && '*' !in item && '\\' !in head && '\\' !in item
    requires |head| > 0 && head[0] !in PyWhitespace
    requires |item| > 0 && item[|item| - 1] !in PyWhitespace
    ensures CleanAiResponse(head + NumberedMarker(d) + item) == head + NumberedMarker(d) + item
  {
    var s := head + NumberedMarker(d) + item;
    assert '*' !in s && '\\' !in s;
    assert s[0] == head[0] && s[|s| - 1] == item[|item| - 1];
    CleanFixedPoint(s);
  }

  // ---------------------------------------------------------------------
  // The cleaner as evidently intended: newline, digit, '.' becomes a bullet
  // ---------------------------------------------------------------------

  predicate IsDigit(c: char) {
    '0' <= c <= '9'
  }

  /** A numbered list marker: newline, one decimal digit, a period. */
  function NumberedMarker(d: char): string {
    ['\n', d, '.']
  }

  predicate StartsNumbered(s: string) {
    |s| >= 3 && s[0] == '\n' && IsDigit(s[1]) && s[2] == '.'
  }

  /** Every numbered marker, scanning from the left, replaced by Bullet. */
  function ReplaceNumbered(s: string): string
    decreases |s|
  {
    if |s| == 0 then []
    else if StartsNumbered(s) then Bullet + ReplaceNumbered(s[3..])
    else [s[0]] + ReplaceNumbered(s[1..])
  }

  /** If the output starts with a string free of newlines, so did the
      input. */
  lemma {:induction false} NumberedPrefixFromInput(u: string, w: string)
    requires '\n' !in w && w <= ReplaceNumbered(u)
    ensures w <= u
    decreases |w|
  {
    if |w| > 0 {
      assert w[0] == ReplaceNumbered(u)[0];
      if StartsNumbered(u) {
        assert false;
      } else {
        var t := ReplaceNumbered(u[1..]);
        assert ReplaceNumbered(u) == [u[0]] + t;
        assert w[1..] <= t;
        NumberedPrefixFromInput(u[1..], w[1..]);
        assert w == [u[0]] + w[1..];
        assert u == [u[0]] + u[1..];
      }
    }
  }

  /** No numbered marker survives ReplaceNumbered. */
  lemma {:induction false} NumberedReplaced(s: string, d: char)
    requires IsDigit(d)
    ensures Avoids(ReplaceNumbered(s), NumberedMarker(d))
    decreases |s|
  {
    var m := NumberedMarker(d);
    if |s| > 0 {
      if StartsNumbered(s) {
        var t := ReplaceNumbered(s[3..]);
        NumberedReplaced(s[3..], d);
        var r := Bullet + t;
        assert r[1] != m[1];
        assert r[1..][0] != m[0];
        assert r[1..][1..] == t;
      } else {
        var t := ReplaceNumbered(s[1..]);
        NumberedReplaced(s[1..], d);
        var r := [s[0]] + t;
        assert r[1..] == t;
        if m[1..] <= t {
          NumberedPrefixFromInput(s[1..], m[1..]);
          assert s[1..][0] == d && s[1..][1] == '.';
          assert s[0] != '\n';
        }
        assert r[0] == s[0];
      }
    }
  }

  /** The cleaner as evidently intended (a regular expression for "newline,
      digit, period"): no asterisk, no whitespace at the ends, and no
      numbered marker left. */
  function CleanAiResponseIntended(text: string): (r: string)
    ensures '*' !in r
    ensures IsTrimmed(r, PyWhitespace)
    ensures forall d :: IsDigit(d) ==> Avoids(r, NumberedMarker(d))
  {
    var stripped := StripMarkdown(text);
    var replaced := ReplaceNumbered(stripped);
    NumberedKeepsChar(stripped, '*');
    forall d | IsDigit(d)
      ensures Avoids(Trim(replaced, PyWhitespace), NumberedMarker(d))
    {
      NumberedReplaced(stripped, d);
      TrimKeepsAvoids(replaced, PyWhitespace, NumberedMarker(d));
    }
    Trim(replaced, PyWhitespace)
  }

  /** ReplaceNumbered introduces no character other than those of Bullet. */
  lemma {:induction false} NumberedKeepsChar(s: string, c: char)
    requires c !in s && c !in Bullet
    ensures c !in ReplaceNumbered(s)
    decreases |s|
  {
    if |s| > 0 {
      if StartsNumbered(s) {
        NumberedKeepsChar(s[3..], c);
        assert s[3..] == s[3..|s|];
      } else {
        NumberedKeepsChar(s[1..], c);
      }
    }
  }

  /** The intended cleaner turns the numbered item into a bullet. */
  lemma CleanIntendedBullets(head: string, d: char, item: string)
    requires IsDigit(d)
    requires '*' !in head && '*' !in item && '\n' !in head && '\n' !in item
    requires |head| > 0 && head[0] !in PyWhitespace
    requires |item| > 0 && item[|item| - 1] !in PyWhitespace
    ensures CleanAiResponseIntended(head + NumberedMarker(d) + item) == head + Bullet + item
  {
    var s := head + NumberedMarker(d) + item;
    assert '*' !in s;
    StripMarkdownAbsent(s);
    NumberedItemReplaced(head, d, item);
    var r := head + Bullet + item;
    assert r[0] == head[0] && r[|r| - 1] == item[|item| - 1];
    TrimOfTrimmed(r, PyWhitespace);
  }

  /** Without asterisks the first two replacements change nothing. */
  lemma StripMarkdownAbsent(s: string)
    requires '*' !in s
    ensures StripMarkdown(s) == s
  {
    AvoidsByMissingChar(s, "**", 0);
    ReplaceAbsent(s, "**", "");
    AvoidsByMissingChar(s, "*", 0);
    ReplaceAbsent(s, "*", "");
  }

  /** One numbered marker between two newline-free texts becomes a bullet. */
  lemma NumberedItemReplaced(head: string, d: char, item: string)
    requires IsDigit(d) && '\n' !in head && '\n' !in item
    ensures ReplaceNumbered(head + NumberedMarker(d) + item) == head + Bullet + item
  {
    var s := head + NumberedMarker(d) + item;
    assert s[..|head|] == head;
    assert s[|head|..] == NumberedMarker(d) + item;
    assert s[|head|..][3..] == item;
    NumberedPlainPrefix(s, |head|);
    NumberedAbsent(item);
  }

  /** Without a newline there is nothing to replace. */
  lemma {:induction false} NumberedAbsent(s: string)
    requires '\n' !in s
    ensures ReplaceNumbered(s) == s
    decreases |s|
  {
    if |s| > 0 {
      NumberedAbsent(s[1..]);
      assert s == [s[0]] + s[1..];
    }
  }

  /** A prefix without newlines is copied as it is. */
  lemma {:induction false} NumberedPlainPrefix(s: string, n: nat)
    requires n <= |s| && '\n' !in s[..n]
    ensures ReplaceNumbered(s) == s[..n] + ReplaceNumbered(s[n..])
    decreases n
  {
    if n > 0 {
      assert s[0] in s[..n];
      assert s[1..][..n - 1] == s[1..n];
      assert forall c :: c in s[1..n] ==> c in s[..n];
      NumberedPlainPrefix(s[1..], n - 1);
      assert s[1..][n - 1..] == s[n..];
      assert s[..n] == [s[0]] + s[1..n];
    }
  }

  // ---------------------------------------------------------------------
  // Prompt builders
  // ---------------------------------------------------------------------

  const HealthPromptHead: string :=
    "You are a knowledgeable healthcare assistant. Please help with this health-related query: "

  const HealthPromptTail: string :=
    "\n\n    Guidelines:\n"
    + "    1. Only answer health-related questions\n"
    + "    2. If the question is not about health, respond: \"I can only help with health-related questions. Please ask about medical, wellness, or health topics.\"\n"
    + "    3. Focus on these health areas:\n"
    + "        - Medical conditions and symptoms\n"
    + "        - Treatment options\n"
    + "        - Preventive healthcare\n"
    + "        - General wellness\n"
    + "        - Mental health\n"
    + "        - First aid\n"
    + "        - Medication information\n"
    + "    4. Keep responses clear and simple\n"
    + "    5. For emergencies, always advise seeking immediate medical attention\n"
    + "    6. Avoid using special characters or markdown formatting\n"
    + "    7. Limit response to 100 words\n"
    + "    8. Include a disclaimer for serious medical concerns\n"
    + "\n"
    + "    Remember: Provide general information only. For specific medical advice, recommend consulting a healthcare professional."

  /** get_health_prompt: the user's text between a fixed head and tail. */
  function HealthPrompt(userInput: string): (r: string)
    ensures |r| == |HealthPromptHead| + |userInput| + |HealthPromptTail|
    ensures HealthPromptHead <= r
    ensures r[|HealthPromptHead|..|HealthPromptHead| + |userInput|] == userInput
    ensures r[|r| - |HealthPromptTail|..] == HealthPromptTail
  {
    HealthPromptHead + userInput + HealthPromptTail
  }

  /** The user's text read back out of a health prompt, if it is one. */
  function MessageInHealthPrompt(prompt: string): (r: Option<string>)
    ensures r.Some? ==> |r.value| == |prompt| - |HealthPromptHead| - |HealthPromptTail|
  {
    var h, t := |HealthPromptHead|, |HealthPromptTail|;
    if |prompt| >= h + t && prompt[..h] == HealthPromptHead && prompt[|prompt| - t..] == HealthPromptTail
    then Some(prompt[h..|prompt| - t])
    else None
  }

  /** The message is embedded verbatim: it can be read back exactly. */
  lemma HealthPromptRoundTrip(userInput: string)
    ensures MessageInHealthPrompt(HealthPrompt(userInput)) == Some(userInput)
  {
  }

  /** Conversely, a prompt the reader accepts is the health prompt of what
      it reads out. */
  lemma HealthPromptOfMessage(prompt: string, userInput: string)
    requires MessageInHealthPrompt(prompt) == Some(userInput)
    ensures HealthPrompt(userInput) == prompt
  {
    Framed(prompt, HealthPromptHead, userInput, HealthPromptTail);
  }

  /** A string that starts with `head`, ends with `tail` and has `mid`
      between them is their concatenation. */
  lemma Framed(p: string, head: string, mid: string, tail: string)
    requires |p| >= |head| + |tail|
    requires p[..|head|] == head && p[|p| - |tail|..] == tail
    requires mid == p[|head|..|p| - |tail|]
    ensures head + mid + tail == p
  {
    assert p == p[..|head|] + p[|head|..|p| - |tail|] + p[|p| - |tail|..];
  }

  const ImagePromptHead: string :=
    "You are a health, fitness, and nutrition expert. Analyze this image and provide:\n"
    + "\n"
    + "If this is a food/meal image:\n"
    + "1. Estimated calories\n"
    + "2. Macro nutrients (protein, carbs, fats)\n"
    + "3. Health benefits\n"
    + "4. Any dietary concerns\n"
    + "5. How it fits into a fitness diet\n"
    + "\n"
    + "If this is an exercise/workout image:\n"
    + "1. Exercise form analysis\n"
    + "2. Target muscle groups\n"
    + "3. Benefits\n"
    + "4. Safety tips\n"
    + "5. Recommended sets and reps\n"
    + "\n"
    + "If this is a medicine image, provide detailed medical usage information.\n"
    + "\n"
    + "Keep response under 100 words and be accurate.\n"
    + "\n"
    + QueryLead

  const QueryLead: string := "For the query: "

  /** get_image_analysis_prompt: a fixed head, then the query. */
  function ImagePrompt(query: string): (r: string)
    ensures ImagePromptHead <= r
    ensures r[|ImagePromptHead|..] == query
  {
    ImagePromptHead + query
  }

  /** The prompt ends with "For the query: " followed by the query. */
  lemma ImagePromptEndsWithQuery(query: string)
    ensures var p := ImagePrompt(query);
      |p| >= |QueryLead| + |query| && p[|p| - |query| - |QueryLead|..] == QueryLead + query
  {
  }

  /** The query read back out of an image prompt, if it is one. */
  function QueryInImagePrompt(prompt: string): (r: Option<string>)
    ensures r.Some? ==> |r.value| == |prompt| - |ImagePromptHead|
  {
    if ImagePromptHead <= prompt then Some(prompt[|ImagePromptHead|..]) else None
  }

  lemma ImagePromptRoundTrip(query: string)
    ensures QueryInImagePrompt(ImagePrompt(query)) == Some(query)
  {
  }

  lemma ImagePromptOfQuery(prompt: string, query: string)
    requires QueryInImagePrompt(prompt) == Some(query)
    ensures ImagePrompt(query) == prompt
  {
  }

  // ---------------------------------------------------------------------
  // Request handling of /api/chat and /api/analyze-image
  // ---------------------------------------------------------------------

  /** What a handler does with a request body: reject it with an HTTP
      status and error text, or go on to call the model with `call`. */
  datatype Response<T> = BadRequest(status: nat, error: string) | Forward(call: T)

  /** What analyze_image hands to the model: the base64 payload and the
      prompt. */
  datatype ImageCall = ImageCall(payload: string, prompt: string)

  /** `data.get(key, '')` on the JSON body. */
  function Field(body: map<string, string>, key: string): (r: string)
    ensures key in body ==> r == body[key]
    ensures key !in body ==> r == ""
  {
    if key in body then body[key] else ""
  }

  /** chat: a missing or empty message is a 400; otherwise the message goes
      verbatim into the health prompt. */
  function Chat(body: map<string, string>): (r: Response<string>)
    ensures r.BadRequest? <==> ("message" !in body || body["message"] == "")
    ensures r.BadRequest? ==> r.status == 400 && r.error == "No message provided"
    ensures r.Forward? ==> MessageInHealthPrompt(r.call) == Some(body["message"])
  {
    var userInput := Field(body, "message");
    if userInput == "" then BadRequest(400, "No message provided")
    else
      HealthPromptRoundTrip(userInput);
      Forward(HealthPrompt(userInput))
  }

  /** analyze_image: a missing or empty image or query is a 400; otherwise
      the payload of the data URL and the image prompt go to the model. */
  function AnalyzeImage(body: map<string, string>): (r: Response<ImageCall>)
    ensures r.BadRequest? <==> Field(body, "image") == "" || Field(body, "query") == ""
    ensures r.BadRequest? ==> r.status == 400 && r.error == "Image and query are required"
    ensures r.Forward? ==>
      r.call.payload == DataUrlPayload(body["image"]) &&
      QueryInImagePrompt(r.call.prompt) == Some(body["query"])
  {
    var imageData := Field(body, "image");
    var query := Field(body, "query");
    if imageData == "" || query == "" then BadRequest(400, "Image and query are required")
    else
      ImagePromptRoundTrip(query);
      Forward(ImageCall(DataUrlPayload(imageData), ImagePrompt(query)))
  }

  // ---------------------------------------------------------------------
  // Data URL payload
  // ---------------------------------------------------------------------

  /** `image_data.split(',')[1] if ',' in image_data else image_data`. */
  function DataUrlPayload(imageData: string): (r: string)
    ensures ',' !in r
    ensures ',' !in imageData ==> r == imageData
  {
    if ',' in imageData then
      var parts := Split(imageData, ',');
      SplitCount(imageData, ',');
      parts[1]
    else imageData
  }

  /** A string with the separator splits into at least two pieces. */
  lemma {:induction false} SplitCount(s: string, sep: char)
    requires sep in s
    ensures |Split(s, sep)| >= 2
    decreases |s|
  {
    if s[0] != sep {
      SplitCount(s[1..], sep);
    }
  }

  /** The payload is the text between the first and the second comma (or the
      end): for a data URL (section 3 of RFC 2397) "data:<mediatype>;base64,"
      followed by base64 text, neither part containing a comma, the payload
      is exactly the base64 text. */
  lemma PayloadBetweenCommas(header: string, data: string, rest: string)
    requires ',' !in header && ',' !in data
    requires rest == [] || rest[0] == ','
    ensures DataUrlPayload(header + [','] + data + rest) == data
  {
    var s := header + [','] + data + rest;
    assert s == header + [','] + (data + rest);
    assert ',' in s by { assert s[|header|] == ','; }
    SplitAtFirst(header, data + rest, ',');
    SplitFirstPiece(data, rest, ',');
  }
}

/**
 * `handle_image` (app.py:60-101): download the Slack file, send it to the
 * Tiliter object counter, and turn the answer into the reply text.
 *
 * The two HTTP calls are inputs: the download's status and bytes, and the
 * inference call's status, raw text and decoded JSON. The function also
 * returns the inference request it would send, so that "no inference is
 * attempted" and "the user's key is sent" can be stated.
 */
module Tiliter {
  import opened Wrappers
  import opened Text

  newtype byte = x: int | 0 <= x < 256

  /** What `handle_image` is called with (app.py:55). */
  datatype ImageCall = ImageCall(url: string, objectName: Option<string>, apiKey: string)

  /** `requests.get(image_url, ...)`: its status code and body. */
  datatype Download = Download(status: int, content: seq<byte>)

  /** The `data:image/jpeg;base64,...` URI built from the downloaded bytes;
      the base64 text itself is left abstract. */
  datatype ImageData = JpegDataUri(bytes: seq<byte>)

  /** The JSON body posted to the object counter, with its `X-API-Key` header. */
  datatype InferenceRequest = InferenceRequest(apiKey: string, imageData: ImageData, parameter: string)

  /** What `response.json()` and the `.get` calls after it give. `Unparseable`
      is any exception raised inside the `try` (a body that is not JSON, a
      `result` that is not an object, ...), with its `str(e)`. Otherwise
      `objectCounts` is the `result.object_counts` entries in their order,
      `None` when the key is absent or null (both are falsy), with names and
      counts already rendered with `str`. `totalObjects` is `None` only when
      the key is absent; a null total is present and renders as `Some("None")`. */
  datatype ParsedBody =
    | Unparseable(error: string)
    | Parsed(objectCounts: Option<seq<(string, string)>>, totalObjects: Option<string>)

  /** `requests.post(TILITER_URL, ...)`: its status, raw text and parsed body. */
  datatype Inference = Inference(status: int, text: string, body: ParsedBody)

  /** The reply text, and the inference request if one was sent. */
  datatype ImageOutcome = ImageOutcome(reply: string, request: Option<InferenceRequest>)

  const DownloadFailedPrefix := ":x: Failed to download image. Status: "
  const InferenceFailedPrefix := ":x: Tiliter API error "
  const ParseFailedPrefix := ":x: Could not parse Tiliter response:\n"
  const NoObjectsReply := ":x: No objects found."
  const ResultTitle := ":brain: *Tiliter Result:*"
  const TotalPrefix := ":white_check_mark: Total objects found: "
  const BreakdownTitle := ":1234: Breakdown:"

  /** Every failure reply, and only those, starts with the `:x:` emoji. */
  predicate IsFailureReply(reply: string) {
    StartsWith(reply, ":x:")
  }

  lemma FailureMark(s: string)
    requires |s| >= 3 && s[0] == ':' && s[1] == 'x' && s[2] == ':'
    ensures IsFailureReply(s)
  {
    assert s[..3] == ":x:";
  }

  /** The `parameter` field: `count <name>` for a non-empty name, else empty. */
  function Parameter(objectName: Option<string>): (r: string)
    ensures r == "" <==> (objectName.None? || objectName.value == "")
    ensures r != "" ==> StartsWith(r, "count ") && r[|"count "|..] == objectName.value
  {
    if objectName.Some? && objectName.value != "" then "count " + objectName.value else ""
  }

  function DownloadFailedReply(status: int): string {
    DownloadFailedPrefix + IntToString(status)
  }

  /** The download failure reply names the status: it can be read back from it. */
  lemma DownloadFailedReplyCitesStatus(status: int)
    ensures var reply := DownloadFailedReply(status);
            StartsWith(reply, DownloadFailedPrefix) && IsFailureReply(reply)
    ensures var digits := DownloadFailedReply(status)[|DownloadFailedPrefix|..];
            digits != [] && (if digits[0] == '-' then AllDigits(digits[1..]) else AllDigits(digits))
            && ParseInt(digits) == status
  {
    var reply := DownloadFailedReply(status);
    assert reply[|DownloadFailedPrefix|..] == IntToString(status);
    FailureMark(DownloadFailedPrefix);
    StartsWithAppend(DownloadFailedPrefix, IntToString(status), ":x:");
    StartsWithAppend(DownloadFailedPrefix, IntToString(status), DownloadFailedPrefix);
    ParseIntToString(status);
  }

  function InferenceFailedReply(status: int, text: string): string {
    InferenceFailedPrefix + IntToString(status) + ": " + text
  }

  /** The inference failure reply names the status, then quotes the whole raw body. */
  lemma InferenceFailedReplyCitesStatusAndBody(status: int, text: string)
    ensures var reply := InferenceFailedReply(status, text);
            var n := |InferenceFailedPrefix| + |IntToString(status)|;
            && IsFailureReply(reply)
            && n + 2 + |text| == |reply|
            && ParseInt(reply[|InferenceFailedPrefix|..n]) == status
            && reply[n + 2..] == text
  {
    var reply := InferenceFailedReply(status, text);
    var digits := IntToString(status);
    SliceConcat(InferenceFailedPrefix, digits, ": " + text);
    assert reply == InferenceFailedPrefix + digits + (": " + text);
    FailureMark(InferenceFailedPrefix);
    StartsWithAppend(InferenceFailedPrefix, digits + (": " + text), ":x:");
    assert reply == InferenceFailedPrefix + (digits + (": " + text));
    ParseIntToString(status);
  }

  /** One line of the breakdown: `• obj: count`. */
  function BulletLine(entry: (string, string)): string {
    "\U{2022} " + entry.0 + ": " + entry.1
  }

  function BulletLines(counts: seq<(string, string)>): (r: seq<string>)
    ensures |r| == |counts|
    ensures forall k :: 0 <= k < |counts| ==> r[k] == BulletLine(counts[k])
  {
    seq(|counts|, k requires 0 <= k < |counts| => BulletLine(counts[k]))
  }

  lemma NoNewlineInBullet(entry: (string, string))
    requires '\n' !in entry.0 && '\n' !in entry.1
    ensures '\n' !in BulletLine(entry)
  {
  }

  /** The success reply (app.py:94-99). */
  function Breakdown(counts: seq<(string, string)>, total: string): string {
    ResultTitle + "\n" + TotalPrefix + total + "\n" + BreakdownTitle + "\n" + Join(BulletLines(counts), '\n')
  }

  /** The success reply is its seven parts joined by newlines. */
  lemma BreakdownIsJoin(counts: seq<(string, string)>, total: string)
    requires counts != []
    ensures Breakdown(counts, total) ==
              Join([ResultTitle, TotalPrefix + total, BreakdownTitle] + BulletLines(counts), '\n')
  {
    var total' := TotalPrefix + total;
    assert Breakdown(counts, total) ==
             ResultTitle + "\n" + total' + "\n" + BreakdownTitle + "\n" + Join(BulletLines(counts), '\n');
    JoinThreeThenRest(ResultTitle, total', BreakdownTitle, BulletLines(counts), '\n');
  }

  /** Read line by line, the success reply is the title, the total, the
      breakdown title, then one `• obj: count` line per entry in order. */
  lemma {:induction false} BreakdownLines(counts: seq<(string, string)>, total: string)
    requires counts != []
    requires '\n' !in total
    requires forall k :: 0 <= k < |counts| ==> '\n' !in counts[k].0 && '\n' !in counts[k].1
    ensures Split(Breakdown(counts, total), '\n') == [ResultTitle, TotalPrefix + total, BreakdownTitle] + BulletLines(counts)
  {
    var bullets := BulletLines(counts);
    forall k | 0 <= k < |bullets| ensures '\n' !in bullets[k] {
      NoNewlineInBullet(counts[k]);
    }
    var lines := [ResultTitle, TotalPrefix + total, BreakdownTitle] + bullets;
    assert '\n' !in ResultTitle;
    assert '\n' !in TotalPrefix + total;
    assert '\n' !in BreakdownTitle;
    forall k | 0 <= k < |lines| ensures '\n' !in lines[k] {
      if k >= 3 {
        assert lines[k] == bullets[k - 3];
      }
    }
    BreakdownIsJoin(counts, total);
    SplitJoin(lines, '\n');
  }

  /** The reply for a 200 inference response, from its decoded body. */
  function ResultReply(body: ParsedBody): (r: string)
    ensures body.Unparseable? ==> r == ParseFailedPrefix + body.error
    ensures body.Parsed? && (body.objectCounts.None? || body.objectCounts.value == []) ==> r == NoObjectsReply
    ensures body.Parsed? && body.objectCounts.Some? && body.objectCounts.value != [] ==>
              r == Breakdown(body.objectCounts.value, body.totalObjects.GetOr("0"))
  {
    match body
    case Unparseable(e) => ParseFailedPrefix + e
    case Parsed(counts, total) =>
      if counts.None? || counts.value == [] then NoObjectsReply
      else Breakdown(counts.value, total.GetOr("0"))
  }

  /** A decoded body yields a failure reply exactly when it holds no counts. */
  lemma ResultReplyKind(body: ParsedBody)
    ensures IsFailureReply(ResultReply(body)) <==>
              !(body.Parsed? && body.objectCounts.Some? && body.objectCounts.value != [])
  {
    var reply := ResultReply(body);
    match body
    case Unparseable(e) =>
      FailureMark(ParseFailedPrefix);
      StartsWithAppend(ParseFailedPrefix, e, ":x:");
    case Parsed(counts, total) =>
      if counts.Some? && counts.value != [] {
        assert ResultTitle[..3] != ":x:" by { assert ResultTitle[1] == 'b'; }
        assert reply[..3] == ResultTitle[..3];
      } else {
        FailureMark(NoObjectsReply);
      }
  }

  /** The inference produced a non-empty count breakdown. */
  predicate Counted(download: Download, inference: Inference) {
    && download.status == 200
    && inference.status == 200
    && inference.body.Parsed?
    && inference.body.objectCounts.Some?
    && inference.body.objectCounts.value != []
  }

  /** `handle_image`: the checks run in order and the first failure decides the reply. */
  function HandleImage(call: ImageCall, download: Download, inference: Inference): (r: ImageOutcome)
    // no inference is attempted after a failed download; otherwise it carries the user's key
    ensures r.request.Some? <==> download.status == 200
    ensures r.request.Some? ==>
              r.request.value == InferenceRequest(call.apiKey, JpegDataUri(download.content), Parameter(call.objectName))
    // the precedence of the three failure domains
    ensures download.status != 200 ==> r.reply == DownloadFailedReply(download.status)
    ensures download.status == 200 && inference.status != 200 ==>
              r.reply == InferenceFailedReply(inference.status, inference.text)
    ensures download.status == 200 && inference.status == 200 ==> r.reply == ResultReply(inference.body)
    // every path yields text, and it reads as a failure exactly when no breakdown was produced
    ensures r.reply != []
    ensures IsFailureReply(r.reply) <==> !Counted(download, inference)
  {
    if download.status != 200 then
      DownloadFailedReplyCitesStatus(download.status);
      ImageOutcome(DownloadFailedReply(download.status), None)
    else
      var request := InferenceRequest(call.apiKey, JpegDataUri(download.content), Parameter(call.objectName));
      if inference.status != 200 then
        InferenceFailedReplyCitesStatusAndBody(inference.status, inference.text);
        ImageOutcome(InferenceFailedReply(inference.status, inference.text), Some(request))
      else
        var reply := ResultReply(inference.body);
        ResultReplyKind(inference.body);
        ImageOutcome(reply, Some(request))
  }
}

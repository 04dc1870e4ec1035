/**
 * The `/events` handler (`slack_events`, app.py:22-58) and the module-level
 * map `user_api_keys` (app.py:15) it reads and writes.
 *
 * A payload is classified, in a fixed precedence, into one `Action`
 * (`Decide`); the `Bot` class then carries the action out: it updates its
 * key map, appends the Slack posts it makes to `outbox`, and answers with a
 * response body.
 */
module SlackEvents {
  import opened Wrappers
  import opened Text
  import opened Tiliter

  /** One entry of `event["files"]`. */
  datatype FileInfo = FileInfo(mimetype: Option<string>, urlPrivate: Option<string>)

  /** The inner `event` object; `None` is an absent key. */
  datatype Event = Event(
    kind: Option<string>,
    user: Option<string>,
    text: Option<string>,
    files: Option<seq<FileInfo>>,
    channel: Option<string>,
    ts: Option<string>)

  /** The decoded request body. */
  datatype Payload = Payload(kind: Option<string>, challenge: Option<string>, event: Option<Event>)

  /** A `chat.postMessage` call: a reply in the thread of message `threadTs`. */
  datatype Post = Post(channel: string, threadTs: string, text: string)

  const UrlVerification := "url_verification"
  const EventCallback := "event_callback"
  const RegisterPrefix := "register sk-"
  const RegisteredReply := ":white_check_mark: API key registered successfully."
  const NoKeyReply := ":warning: Please register your API key first using `register sk-...`."

  /** `data.get("event", {})`. */
  function EventOf(p: Payload): Event {
    p.event.GetOr(Event(None, None, None, None, None, None))
  }

  predicate IsMessage(ev: Event) {
    ev.kind == Some("message")
  }

  // ---------------------------------------------------------------------------
  // The `register sk-...` command (app.py:36-40)

  /** What the bridge accepts as a stored key. */
  predicate ValidApiKey(key: string) {
    StartsWith(key, "sk-") && NoUpper(key)
  }

  /** The text, stripped and lower-cased, starts with `register sk-`. */
  predicate IsRegisterText(text: string) {
    StartsWith(Lower(Strip(text)), RegisterPrefix)
  }

  predicate IsRegisterCommand(ev: Event) {
    IsMessage(ev) && ev.text.Some? && IsRegisterText(ev.text.value)
  }

  /** `text.split("register", 1)[1].strip()` of the stripped, lower-cased text:
      the piece of it after `register`, less the white space around it, which
      is a key that starts with `sk-` and has no upper-case letter. */
  function RegisteredKey(text: string): (key: string)
    requires IsRegisterText(text)
    ensures ValidApiKey(key)
    ensures |key| < |text|
    ensures exists i :: PaddedAt(Lower(Strip(text)), |"register"|, i, key)
  {
    var t := Lower(Strip(text));
    RegisterSplit(t);
    RegisteredKeyShape(t);
    StripSuffixPadded(t, 8);
    Strip(AfterFirst(t, "register").value)
  }

  /** A text starting with `register sk-` splits at its leading `register`. */
  lemma RegisterSplit(t: string)
    requires StartsWith(t, RegisterPrefix)
    ensures StartsWith(t, "register") && AfterFirst(t, "register") == Some(t[8..])
  {
    assert t[..8] == t[..|RegisterPrefix|][..8];
  }

  /** Registering a key and reading it back: `register <key>` stores the key
      itself, when the key has no white space at either end. */
  lemma RegisteredKeyRoundTrip(key: string)
    requires ValidApiKey(key) && !IsSpace(key[|key| - 1])
    ensures IsRegisterText("register " + key)
    ensures RegisteredKey("register " + key) == key
  {
    var text := "register " + key;
    assert NoUpper(text) by {
      assert forall k :: 9 <= k < |text| ==> text[k] == key[k - 9];
    }
    StripUnpadded(text);
    LowerIdentity(text);
    assert StartsWith(text, RegisterPrefix) by {
      assert text[..|RegisterPrefix|] == "register " + key[..3];
    }
    assert StartsWith(text, "register") by {
      assert text[..8] == "register";
    }
    assert text[8..] == [' '] + key;
    assert !IsSpace(key[0]) by { assert key[..3] == "sk-"; }
    StripLeadingSpace(' ', key);
  }

  /** What follows `register` in a lower-cased `register sk-...` text strips
      to a key that starts with `sk-` and has no upper case. */
  lemma RegisteredKeyShape(t: string)
    requires StartsWith(t, RegisterPrefix) && NoUpper(t)
    ensures ValidApiKey(Strip(t[8..]))
  {
    var rest := t[8..];
    var u := t[9..];
    assert StartsWith(u, "sk-") by {
      assert u[..3] == t[..|RegisterPrefix|][9..];
    }
    assert rest == [' '] + u by {
      assert t[8] == t[..|RegisterPrefix|][8];
    }
    SpacedKeyStrips(u);
    assert NoUpper(rest) by {
      assert forall k :: 0 <= k < |rest| ==> rest[k] == t[k + 8];
    }
  }

  /** A space followed by `sk-...` strips to a text that starts with `sk-`. */
  lemma SpacedKeyStrips(u: string)
    requires StartsWith(u, "sk-")
    ensures StartsWith(Strip([' '] + u), "sk-")
  {
    assert u[0] == 's' && u[2] == '-' by {
      assert u[0] == u[..3][0] && u[2] == u[..3][2];
    }
    assert !IsSpace(u[0]) && !IsSpace(u[2]);
    var su := [' '] + u;
    assert su[0] == ' ' && su[1..] == u;
    assert TrimLeft(su) == TrimLeft(su[1..]);
    assert TrimLeft(u) == u;
    var key := TrimRight(u);
    assert Strip(su) == key;
    assert |key| >= 3;
    assert key[..3] == u[..3];
  }

  // ---------------------------------------------------------------------------
  // Image selection (app.py:45-47)

  /** `f.get('mimetype', '').startswith('image/')`. */
  predicate IsImage(f: FileInfo) {
    StartsWith(f.mimetype.GetOr(""), "image/")
  }

  /** The index of the first image among the files: the generator inside `next(..., None)`. */
  function FirstImage(files: seq<FileInfo>): (r: Option<nat>)
    ensures r.Some? ==> r.value < |files| && IsImage(files[r.value])
    ensures r.Some? ==> forall j :: 0 <= j < r.value ==> !IsImage(files[j])
    ensures r.None? <==> forall j :: 0 <= j < |files| ==> !IsImage(files[j])
    decreases |files|
  {
    if files == [] then None
    else if IsImage(files[0]) then Some(0)
    else
      match FirstImage(files[1..])
      case None => None
      case Some(i) => Some(i + 1)
  }

  /** A file without a `mimetype` is never taken for an image. */
  lemma MissingMimetypeIsNotImage(f: FileInfo)
    requires f.mimetype.None?
    ensures !IsImage(f)
  {
  }

  /** The message reaches the file branch: not a registration, a message, with `files`. */
  predicate ReachesFiles(ev: Event) {
    !IsRegisterCommand(ev) && IsMessage(ev) && ev.files.Some?
  }

  /** The `url_private` of the selected image exists (Python would raise `KeyError`). */
  predicate ImageUrlPresent(ev: Event) {
    ReachesFiles(ev) ==>
      match FirstImage(ev.files.value)
      case None => true
      case Some(i) => ev.files.value[i].urlPrivate.Some?
  }

  /** `image_url`, when it is truthy: the first image's non-empty `url_private`. */
  function ImageUrl(ev: Event): (r: Option<string>)
    requires ImageUrlPresent(ev)
    ensures r.Some? ==> r.value != []
    ensures r.Some? <==>
              ReachesFiles(ev) && FirstImage(ev.files.value).Some?
              && ev.files.value[FirstImage(ev.files.value).value].urlPrivate.value != []
    ensures r.Some? ==>
              ReachesFiles(ev) && FirstImage(ev.files.value).Some?
              && r.value == ev.files.value[FirstImage(ev.files.value).value].urlPrivate.value
  {
    if !ReachesFiles(ev) then None
    else match FirstImage(ev.files.value)
      case None => None
      case Some(i) =>
        var url := ev.files.value[i].urlPrivate.value;
        if url == [] then None else Some(url)
  }

  // ---------------------------------------------------------------------------
  // `count <object>` (app.py:53-54)

  /** `user_text.replace("count", "").strip() if user_text.startswith("count") else None`
      with `user_text = event.get("text", "").lower()`: note that the text is not stripped first. */
  function ObjectName(text: Option<string>): (r: Option<string>)
    ensures r.Some? <==> StartsWith(Lower(text.GetOr("")), "count")
    ensures r.Some? ==> NoUpper(r.value) && |r.value| <= |text.GetOr("")| - |"count"|
    ensures r.Some? ==> r.value == [] || (!IsSpace(r.value[0]) && !IsSpace(r.value[|r.value| - 1]))
    // every `count`, not only the leading one, is removed before stripping
    ensures r.Some? ==> r.value == Strip(RemoveAll(Lower(text.GetOr("")), "count"))
  {
    var userText := Lower(text.GetOr(""));
    if StartsWith(userText, "count") then
      assert OccursAt(userText, "count", 0);
      Some(Strip(RemoveAll(userText, "count")))
    else None
  }

  /** `count <name>` yields the name itself, when the name has no upper case,
      no white space at either end, and no `count` inside it. */
  lemma ObjectNameRoundTrip(name: string)
    requires NoUpper(name)
    requires forall j :: !OccursAt(name, "count", j)
    requires name == [] || (!IsSpace(name[0]) && !IsSpace(name[|name| - 1]))
    ensures ObjectName(Some("count " + name)) == Some(name)
  {
    var rest := [' '] + name;
    var text := "count" + rest;
    assert text == "count " + name;
    assert NoUpper(text) by {
      assert forall k :: 6 <= k < |text| ==> text[k] == name[k - 6];
    }
    LowerIdentity(text);
    RemoveAllDropsLeading("count", rest);
    NoCountAfterSpace(name);
    RemoveAllScan(rest, "count");
    StripLeadingSpace(' ', name);
  }

  /** A space in front of a text with no `count` does not make one. */
  lemma NoCountAfterSpace(name: string)
    requires forall j :: !OccursAt(name, "count", j)
    ensures forall j :: !OccursAt([' '] + name, "count", j)
  {
    var rest := [' '] + name;
    assert rest[1..] == name;
    forall j | OccursAt(rest, "count", j) ensures false {
      if j == 0 {
        OccursAtHead(rest, "count", 0);
      } else {
        OccursShiftAt(rest, "count", j - 1);
      }
    }
  }

  /** Every `count` goes, not only the command word: `count my count` names
      the object `my`, where removing only the leading `count` would give `my count`. */
  lemma ObjectNameDropsEveryCount()
    ensures ObjectName(Some("count my count")) == Some("my")
  {
    var text := "count" + (" my " + "count");
    assert text == "count my count";
    assert NoUpper(text);
    LowerIdentity(text);
    RemoveEveryCount();
    assert " my " == [' '] + "my" + [' '];
    StripBothSpaces(' ', "my", ' ');
  }

  lemma RemoveEveryCount()
    ensures RemoveAll("count" + (" my " + "count"), "count") == " my "
  {
    var inner := " my " + "count";
    RemoveAllDropsLeading("count", inner);
    forall j | 0 <= j < 4 ensures !OccursAt(inner, "count", j) {
      if OccursAt(inner, "count", j) {
        OccursAtHead(inner, "count", j);
      }
    }
    RemoveAllKeepsPrefix(inner, "count", 4);
    assert inner[..4] == " my " && inner[4..] == "count" + [];
    RemoveAllDropsLeading("count", []);
  }

  // ---------------------------------------------------------------------------
  // Classification

  /** The keys `slack_events` reads without `.get`, which raise `KeyError` when
      absent: `challenge`, and `channel`, `ts` and the image's `url_private`
      on the paths that use them. */
  predicate WellFormed(p: Payload) {
    && (p.kind == Some(UrlVerification) ==> p.challenge.Some?)
    && (p.kind == Some(EventCallback) ==> EventWellFormed(EventOf(p)))
  }

  predicate EventWellFormed(ev: Event) {
    && (IsRegisterCommand(ev) ==> ev.channel.Some? && ev.ts.Some?)
    && ImageUrlPresent(ev)
    && (ImageUrl(ev).Some? ==> ev.channel.Some? && ev.ts.Some?)
  }

  /** `user_api_keys.get(user_id)` is truthy. */
  predicate HasKey(keys: map<Option<string>, string>, user: Option<string>) {
    user in keys && keys[user] != ""
  }

  /** What the handler does with one payload. */
  datatype Action =
    | AnswerChallenge(token: string)
    | RegisterKey(user: Option<string>, key: string, channel: string, ts: string)
    | WarnNoKey(channel: string, ts: string)
    | ProcessImage(call: ImageCall, channel: string, ts: string)
    | Acknowledge

  /** The handler's decision, in the order the source tests for it:
      verification challenge, then registration, then image, then "OK". */
  function Decide(keys: map<Option<string>, string>, p: Payload): (a: Action)
    requires WellFormed(p)
    // a challenge is answered whatever else the payload or the key map holds
    ensures p.kind == Some(UrlVerification) ==> a == AnswerChallenge(p.challenge.value)
    ensures a.AnswerChallenge? ==> p.kind == Some(UrlVerification)
    // registration wins over an attached image, and needs no key
    ensures a.RegisterKey? <==> p.kind == Some(EventCallback) && IsRegisterCommand(EventOf(p))
    ensures a.RegisterKey? ==> a.user == EventOf(p).user && ValidApiKey(a.key)
    ensures a.RegisterKey? ==> a.key == RegisteredKey(EventOf(p).text.value)
    // a selected image is processed with the sender's key, or triggers the warning
    ensures a.WarnNoKey? || a.ProcessImage? <==>
              p.kind == Some(EventCallback) && ImageUrl(EventOf(p)).Some?
    ensures a.WarnNoKey? ==> !HasKey(keys, EventOf(p).user)
    ensures a.ProcessImage? ==>
              && HasKey(keys, EventOf(p).user)
              && a.call == ImageCall(ImageUrl(EventOf(p)).value, ObjectName(EventOf(p).text), keys[EventOf(p).user])
    ensures a.ProcessImage? || a.WarnNoKey? || a.RegisterKey? ==>
              a.channel == EventOf(p).channel.value && a.ts == EventOf(p).ts.value
  {
    if p.kind == Some(UrlVerification) then AnswerChallenge(p.challenge.value)
    else if p.kind != Some(EventCallback) then Acknowledge
    else
      var ev := EventOf(p);
      if IsRegisterCommand(ev) then
        RegisterKey(ev.user, RegisteredKey(ev.text.value), ev.channel.value, ev.ts.value)
      else match ImageUrl(ev)
        case None => Acknowledge
        case Some(url) =>
          if !HasKey(keys, ev.user) then WarnNoKey(ev.channel.value, ev.ts.value)
          else ProcessImage(ImageCall(url, ObjectName(ev.text), keys[ev.user]), ev.channel.value, ev.ts.value)
  }

  /** The decision reads the key map only to choose between the warning and
      processing: any other decision is the same for every key map. */
  lemma DecideIgnoresKeysOutsideImages(keys: map<Option<string>, string>, keys': map<Option<string>, string>, p: Payload)
    requires WellFormed(p)
    requires !(Decide(keys, p).WarnNoKey? || Decide(keys, p).ProcessImage?)
    ensures Decide(keys', p) == Decide(keys, p)
  {
  }

  /** Once a user has registered, their next image message is processed with
      the key they registered, where before it may have drawn the warning. */
  lemma RegisteredUserIsServed(keys: map<Option<string>, string>, register: Payload, image: Payload)
    requires WellFormed(register) && WellFormed(image)
    requires Decide(keys, register).RegisterKey?
    requires image.kind == Some(EventCallback) && ImageUrl(EventOf(image)).Some?
    requires EventOf(image).user == EventOf(register).user
    ensures var r := Decide(keys, register);
            var a := Decide(keys[r.user := r.key], image);
            a.ProcessImage? && a.call.apiKey == r.key
  {
    var r := Decide(keys, register);
    assert r.key != [] by {
      assert |r.key| >= |"sk-"|;
    }
    var keys' := keys[r.user := r.key];
    assert HasKey(keys', EventOf(image).user);
  }

  /** With every stored key valid, the warning goes exactly to users with no entry. */
  lemma WarnedUserHasNoEntry(keys: map<Option<string>, string>, p: Payload)
    requires WellFormed(p)
    requires forall u :: u in keys ==> ValidApiKey(keys[u])
    requires p.kind == Some(EventCallback) && ImageUrl(EventOf(p)).Some?
    ensures Decide(keys, p).WarnNoKey? <==> EventOf(p).user !in keys
  {
    var u := EventOf(p).user;
    if u in keys {
      assert keys[u][..3] == "sk-";
    }
  }

  // ---------------------------------------------------------------------------
  // The handler's state

  class Bot {
    /** `user_api_keys`: the registered key of each user id; the user id may be absent. */
    var keys: map<Option<string>, string>
    /** Every `post_to_slack` call made so far, in order. */
    var outbox: seq<Post>

    /** Every stored key went through registration. */
    ghost predicate Valid()
      reads this
    {
      forall u :: u in keys ==> ValidApiKey(keys[u])
    }

    /** The process starts with no keys and nothing posted. */
    constructor ()
      ensures Valid()
      ensures keys == map[] && outbox == []
    {
      keys := map[];
      outbox := [];
    }

    /** `post_to_slack(channel, thread_ts, message)`. */
    method PostToSlack(channel: string, threadTs: string, message: string)
      modifies this`outbox
      ensures outbox == old(outbox) + [Post(channel, threadTs, message)]
    {
      outbox := outbox + [Post(channel, threadTs, message)];
    }

    /** Storing a registered key (app.py:40-41): the sender's entry is set,
        or replaced, and one confirmation is posted in the message's thread. */
    method Register(user: Option<string>, key: string, channel: string, ts: string)
      requires Valid() && ValidApiKey(key)
      modifies this
      ensures Valid()
      ensures keys == old(keys)[user := key]
      ensures outbox == old(outbox) + [Post(channel, ts, RegisteredReply)]
    {
      keys := keys[user := key];
      PostToSlack(channel, ts, RegisteredReply);
    }

    /** `slack_events` for one payload. The responses of the two HTTP calls
        `handle_image` makes are inputs; `call` is what it was invoked with. */
    method HandleEvent(p: Payload, download: Download, inference: Inference) returns (body: string, call: Option<ImageCall>)
      requires Valid() && WellFormed(p)
      modifies this
      ensures Valid()
      ensures var a := Decide(old(keys), p);
              a.AnswerChallenge? ==> body == a.token && call == None && keys == old(keys) && outbox == old(outbox)
      ensures var a := Decide(old(keys), p);
              a.RegisterKey? ==>
                && body == "Registered" && call == None
                && keys == old(keys)[a.user := a.key]
                && outbox == old(outbox) + [Post(a.channel, a.ts, RegisteredReply)]
      ensures var a := Decide(old(keys), p);
              a.WarnNoKey? ==>
                && body == "No key" && call == None && keys == old(keys)
                && outbox == old(outbox) + [Post(a.channel, a.ts, NoKeyReply)]
      ensures var a := Decide(old(keys), p);
              a.ProcessImage? ==>
                && body == "OK" && call == Some(a.call) && keys == old(keys)
                && outbox == old(outbox) + [Post(a.channel, a.ts, HandleImage(a.call, download, inference).reply)]
      ensures Decide(old(keys), p).Acknowledge? ==>
                body == "OK" && call == None && keys == old(keys) && outbox == old(outbox)
      // only a registration changes the key map; each payload makes at most one post
      ensures keys != old(keys) ==> Decide(old(keys), p).RegisterKey?
      ensures |outbox| <= |old(outbox)| + 1
    {
      call := None;
      var a := Decide(keys, p);
      match a
      case AnswerChallenge(token) =>
        body := token;
      case RegisterKey(user, key, channel, ts) =>
        Register(user, key, channel, ts);
        body := "Registered";
      case WarnNoKey(channel, ts) =>
        PostToSlack(channel, ts, NoKeyReply);
        body := "No key";
      case ProcessImage(c, channel, ts) =>
        var outcome := HandleImage(c, download, inference);
        call := Some(c);
        PostToSlack(channel, ts, outcome.reply);
        body := "OK";
      case Acknowledge =>
        body := "OK";
    }
  }
}

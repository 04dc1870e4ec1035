# Slack-to-Tiliter bridge: a Dafny model of the event handler

The bridge is a small Flask application (`app.py`). Slack posts events to `/events`. The handler does four things:

- It answers Slack's URL-verification handshake.
- It stores a user's Tiliter API key when they send `register sk-…`.
- For a message with an image attached, it downloads the first image and sends it to Tiliter's object counter, using the sender's registered key. It then posts the count breakdown back into the message's thread.
- It answers `OK` to everything else.

The registered keys live in a process-wide dictionary, `user_api_keys`.

The model has four modules:

- `Wrappers` (`wrappers.dfy`): `Option`. It stands for an absent JSON key or Python's `None`.
- `Text` (`text.dfy`): the Python string operations the handler relies on, defined over `seq<char>`:
  - `strip` and `lower`;
  - `startswith`, `split(sep, 1)` and `replace(pat, "")`;
  - `"\n".join`, and a `Split` on one character that the handler never calls: it only lets `Tiliter.BreakdownLines` read a joined reply back line by line;
  - the decimal rendering of an `int`.
- `Tiliter` (`tiliter.dfy`): `handle_image` as a pure function.
  - Its inputs are the two HTTP responses: the download's status and bytes, and the inference call's status, raw text and decoded body.
  - It returns the reply text, plus the inference request if one was sent.
- `SlackEvents` (`slack_events.dfy`): the payload datatypes and the parsing pieces (the register command, image selection, `count <object>`), plus the handler.
  - `Decide` classifies a payload into one `Action`, in the source's precedence: challenge, registration, image (warn or process), acknowledge.
  - The class `Bot` holds the key map (`keys: map<Option<string>, string>`; the user id may be absent and is still a key) and `outbox`, the sequence of `post_to_slack` calls made so far.
  - `Bot.HandleEvent` carries out the decided action on that state and returns the response body.

`app.py` is deliberately simple, and the model keeps it so:

- There is no deduplication and no warn throttle. A repeated delivery is handled again, and an unregistered user is warned on every image message.
- Processing is synchronous.
- Only the first image attachment is processed, and it gets one reply.
- Messages posted by bots are not filtered out.
- No read or delete command exists for keys.
- Any status other than exactly 200 counts as a failure, so a 201 fails too.
- An inference failure quotes the whole response body, with no length bound.
- A missing or null `object_counts` gives "No objects found". A missing `total_objects` is shown as `0`, and a null one as `None`.

## Model

| member | source | states |
|---|---|---|
| `Text.Lower` | app.py:37 | `lower()` keeps the length, leaves every character that is not an upper-case letter in place, maps each upper-case letter `A`–`Z` to its lower-case letter, and so leaves no upper-case letter |
| `Text.TrimLeft` | app.py:37 | the part `lstrip()` removes is all white space, and what remains is a suffix that does not start with white space |
| `Text.TrimRight` | app.py:37 | the part `rstrip()` removes is all white space, and what remains is a prefix that does not end with white space |
| `Text.Strip` | app.py:37 | `strip()` gives a piece no longer than its input, with no white space at either end, and introduces no upper case |
| `Text.StripIsPadded` | app.py:37 | what `strip()` keeps is one contiguous piece of the text, with only white space before it and only white space after it |
| `Text.StripUnpadded` | app.py:37 | a text with no white space at either end is its own `strip()` |
| `Text.StripLeadingSpace` | app.py:37 | one leading white-space character in front of such a text is removed by `strip()` |
| `Text.StripBothSpaces` | app.py:54 | `strip()` removes one white-space character at each end of a non-empty text with no white space at either end |
| `Text.AfterFirst` | app.py:39 | `split(sep, 1)[1]` exists exactly when `sep` occurs; when the text starts with `sep` it is everything after that prefix |
| `Text.RemoveAll` | app.py:54 | `replace(pat, "")` never lengthens the text and introduces no upper case |
| `Text.RemoveAllKeepsPrefix` | app.py:54 | where no occurrence of `pat` starts before index `i`, `replace` copies the first `i` characters unchanged and carries on from there |
| `Text.RemoveAllDropsLeading` | app.py:54 | `replace(pat, "")` deletes an occurrence at the start of the text and carries on with the rest |
| `Text.RemoveAllScan` | app.py:54 | `replace` scans left to right without overlap: with no occurrence the text is unchanged; otherwise the text before the first occurrence is kept, that occurrence is deleted, and the scan resumes right after it |
| `Text.RemoveAllIsSinglePass` | app.py:54 | one pass of `replace` can leave `count` behind: `"cocountunt"` becomes `"count"` |
| `Text.SplitJoin` | app.py:94 | splitting a `"\n".join` of newline-free lines on `"\n"` gives back exactly those lines |
| `Text.ParseIntToString` | app.py:64 | the decimal rendering of a status code can be read back to the same code, so distinct codes give distinct texts |
| `Tiliter.Parameter` | app.py:70 | the `parameter` is empty exactly when the object name is absent or empty; otherwise it is `count ` followed by the name |
| `Tiliter.DownloadFailedReplyCitesStatus` | app.py:63-64 | the download failure reply is a `:x:` failure whose text after the fixed prefix reads back as the download status |
| `Tiliter.InferenceFailedReplyCitesStatusAndBody` | app.py:83-84 | the inference failure reply is a `:x:` failure that holds the inference status (readable back), then `: `, then the whole raw body |
| `Tiliter.BreakdownLines` | app.py:94-99 | read line by line, the success reply is the title, the total, the breakdown title, then one `• obj: count` line per entry in order |
| `Tiliter.ResultReply` | app.py:86-101 | a body that failed to parse gives the "Could not parse" reply with the error text; absent or empty counts give exactly ":x: No objects found."; otherwise the breakdown, with a missing total shown as `0` |
| `Tiliter.ResultReplyKind` | app.py:86-101 | the reply from a decoded body is a `:x:` failure exactly when the body holds no counts |
| `Tiliter.HandleImage` | app.py:60-101 | checks download, then inference, then the parsed result, and stops at the first failure; an inference request is sent exactly when the download returned 200, and it carries the user's key, the downloaded bytes and the `parameter`; the reply is never empty and is a `:x:` failure exactly when no breakdown was produced |
| `SlackEvents.RegisteredKey` | app.py:37-39 | the key taken from a `register sk-…` message starts with `sk-`, has no upper-case letter, is shorter than the message, and is a piece of the stripped, lower-cased text after `register` with only white space around it |
| `SlackEvents.RegisteredKeyRoundTrip` | app.py:37-39 | `register <key>` is a register command and stores exactly `<key>`, for any valid key with no white space at either end |
| `SlackEvents.RegisteredKeyShape` | app.py:37-39 | what follows `register` in a lower-cased `register sk-…` text strips to a key that starts with `sk-` and has no upper case |
| `SlackEvents.FirstImage` | app.py:46 | the selected file is an image and no earlier file is; no file is selected exactly when none is an image |
| `SlackEvents.MissingMimetypeIsNotImage` | app.py:46 | a file with no `mimetype` is treated as `""` and is never an image |
| `SlackEvents.ImageUrl` | app.py:45-47 | an image URL is chosen exactly when the message reaches the file branch, some file is an image, and the first image's `url_private` is non-empty (an empty URL is falsy); the URL chosen is that first image's `url_private` |
| `SlackEvents.ObjectName` | app.py:53-54 | an object name exists exactly when the lower-cased, unstripped text starts with `count`; it is then the lower-cased text with every `count` removed and then stripped (both pinned by `Text.RemoveAllScan` and `Text.StripIsPadded`), at least 5 characters shorter than the text, with no upper case and no white space at either end |
| `SlackEvents.ObjectNameRoundTrip` | app.py:53-54 | `count <name>` yields exactly `<name>`, for a name with no upper case, no `count` inside it and no white space at either end |
| `SlackEvents.ObjectNameDropsEveryCount` | app.py:54 | every `count` is removed, not only the command word: `count my count` names the object `my` |
| `SlackEvents.Decide` | app.py:27-58 | a `url_verification` payload is answered with its challenge whatever else it holds; registration is chosen exactly for a register command, even with files attached, and stores for the sender the valid key `RegisteredKey` reads from the text; an image is warned about or processed exactly when one is selected; the warning is chosen exactly when the sender has no truthy key, so an empty stored key is warned about; processing uses the sender's stored key, the first image's URL and the object name |
| `SlackEvents.DecideIgnoresKeysOutsideImages` | app.py:28-47 | the key map affects only whether an image is warned about or processed; every other decision is the same for any key map |
| `SlackEvents.RegisteredUserIsServed` | app.py:38-50 | when `Decide` registers a key for a user, that user's next image message, decided on the updated key map, is processed with that key |
| `SlackEvents.WarnedUserHasNoEntry` | app.py:48-51 | when every stored key is valid, an image sender is warned exactly when they have no entry in the key map |
| `SlackEvents.Bot.constructor` | app.py:15 | the handler starts with an empty key map and nothing posted |
| `SlackEvents.Bot.PostToSlack` | app.py:103-116 | a post appends exactly one (channel, thread, text) entry to the outbox |
| `SlackEvents.Bot.Register` | app.py:40-41 | storing a registered key sets or replaces only the sender's entry, keeps every stored key valid, and posts one confirmation in the message's thread |
| `SlackEvents.Bot.HandleEvent` | app.py:22-58 | each decision's effects: a challenge returns the token, posts nothing and leaves the keys; registration sets only the sender's entry, makes one confirmation post and returns "Registered"; a missing key makes one warning post, returns "No key" and skips `handle_image`; processing invokes `handle_image` once with the sender's key and posts its reply once; anything else returns "OK" with no post; only registration changes the keys, and there is at most one post per payload; every stored key stays valid |

## Left out

- Flask routing is not modelled: `request.json`, the `/` health route, `make_response` headers and `app.run`. The payload is an already-decoded datatype.
- The HTTP calls are inputs or abstract values, not calls. This covers `requests.get` and `requests.post` to Slack and Tiliter, their headers (including `SLACK_TOKEN`), and the network errors they can raise.
  - The download and inference responses are parameters of `HandleEvent` and `HandleImage`.
  - A post to Slack is an entry appended to `outbox`.
- Base64 encoding and the `data:image/jpeg;base64,` URI are not modelled. `ImageData` keeps the downloaded bytes and leaves the encoding abstract.
- `response.json()` and Python's `str()` of JSON values are not modelled. `ParsedBody` is either the decoded counts and total, already rendered as text, or `Unparseable` with the exception's message. `Unparseable` covers every exception raised inside the `try`.
- `print` logging and environment configuration are not modelled. `DEFAULT_TILITER_API_KEY` is read but never used.
- The `KeyError` raised for a missing `challenge`, `channel`, `ts`, or selected `url_private` is not modelled as an error. It is the precondition `WellFormed`.
- JSON values of unexpected types are not modelled: a non-string `type`, `text` or `user`, or a null `event` or `mimetype`. Python would raise on some of these, and the model types them as strings or absent.
- `Text.Lower`: lower-cases only the ASCII letters `A`–`Z`. Python's `str.lower` also maps other Unicode letters, sometimes to several characters. So "no upper case" in the contracts means no ASCII upper case.
- `Text.RemoveAll`: does not state that the removed length is a multiple of the pattern's length.
- `SlackEvents.Bot.HandleEvent`: does not repeat the source's nested tests step by step. It carries out the action `Decide` computes, and `Decide` holds the order of those tests.

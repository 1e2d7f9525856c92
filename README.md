# Chat relay: input sanitizer and `/chat` handler

This project models the decision logic of a small Flask service that relays chat
messages to an n8n webhook. It covers two parts of `app.py`:

- `sanitize_input` refuses anything that is not a non-empty string. It strips the
  whitespace around the text. It refuses the text when one of six fixed
  prompt-injection patterns occurs anywhere in it, ignoring letter case.
  Otherwise it returns the stripped text.
- `chat()` runs its checks in a fixed order. It posts the cleaned message and the
  session id downstream. It then maps what the downstream call ended in to an
  HTTP status and a JSON body.

The model is pure: datatypes, functions and lemmas.

- `wrappers.dfy`: `Option`, which stands for Python's `None`.
- `json.dfy`: the parsed request body as a JSON value, with Python truthiness and `dict.get`. `JNull` stands for `request.json` returning `None`, which it does for a JSON `null` body.
- `text.dfy`: Python's whitespace set.
  - `str.isspace`, which `str.strip` and the regular-expression class `\s` share.
  - `str.strip`, built from `lstrip` and `rstrip`.
  - The ASCII case folding of `re.IGNORECASE`.
- `patterns.dfy`: the regular-expression subset the blocklist uses.
  - Tokens: literal text, `\s*`, `\s+`, `c?` and a group of alternatives.
  - A prefix match, and `re.search` as a scan over start positions.
- `sanitizer.dfy`: the six patterns and `Sanitize`.
- `chat.dfy`: the handler, with the downstream call's result as an input of type `Downstream`.
  - `Downstream` cases: a timeout, another request failure, another exception, or a response with a status, a text and an optional parsed JSON body.
  - A `Reply` records the status, the kind of body, and the `Post` that was sent downstream, if any.

Where the code and the service's documented behaviour differ, the model follows the code:

- A truthy request body that is not a JSON object (a list, a string, a number) reaches `data.get`. That raises `AttributeError`, so the handler answers 500, not 400.
- `raise_for_status` raises only for statuses from 400 to 599. Any other downstream status is relayed with 200. This includes 1xx, 3xx and statuses of 600 and above.
- A whitespace-only message is truthy, so it gets past the "message required" check. `sanitize_input` turns it into `""`, and the handler refuses it as too short.
- For the same reason, sanitizing twice equals sanitizing once only when the first result is non-empty.
- A body that cannot be parsed as JSON makes `request.json` raise inside the `try` (app.py:72-73). The generic handler (app.py:135-140) then answers 500, not the documented 400. From Flask 2.1 on, an absent body or one without a JSON content type also makes `request.json` raise (a 400 error in 2.1 and 2.2, a 415 error from 2.3), so the handler answers 500 for those too. Only before Flask 2.1 does an absent body give `None`, which the handler answers with 400 "no data".
- The length bounds 3 and 500 are checked by the handler, not by `sanitize_input`. They are checked after the blocklist, so a text that is both blocked and too long is refused as blocked.

## Model

| member | source | states |
|---|---|---|
| Text.IsSpace | app.py:38 | The whitespace set of `str.isspace`, which both `str.strip()` and the regular-expression class `\s` use: the ASCII controls 9–13 and 28–31, space, U+0085, U+00A0, U+1680, U+2000–U+200A, U+2028, U+2029, U+202F, U+205F and U+3000. |
| Text.TrimStart | app.py:38 | The result is a suffix of the input. Everything cut off is whitespace. The result is empty or starts with a non-space. |
| Text.TrimEnd | app.py:38 | The result is a prefix of the input. Everything cut off is whitespace. The result is empty or ends with a non-space. |
| Text.Strip | app.py:38 | The stripped text neither starts nor ends with whitespace. |
| Text.StripIsSlice | app.py:38 | The stripped text is the contiguous part of the input that follows the leading whitespace. |
| Text.StripCutsOnlySpace | app.py:38 | Everything `strip` removes, in front and behind, is whitespace. |
| Text.TrimStartPadded | app.py:38 | Left-stripping whitespace followed by a text that starts with a non-space removes exactly that whitespace. |
| Text.TrimEndPadded | app.py:38 | Right-stripping a text that ends with a non-space followed by whitespace removes exactly that whitespace. |
| Text.StripPadded | app.py:38 | An unpadded text surrounded by whitespace strips to exactly that text. Together with `Strip`'s contract, this pins `strip` down completely. |
| Text.StripUnpadded | app.py:38 | A text with no whitespace at either end is left unchanged. |
| Text.StripIdempotent | app.py:38 | Stripping twice is the same as stripping once. |
| Text.TrimStartAppend | app.py:38 | Left-stripping `x + b` gives `lstrip(b)` when `x` is all whitespace, and `lstrip(x) + b` otherwise. |
| Text.TrimEndAppend | app.py:38 | Right-stripping `a + y` gives `rstrip(a)` when `y` is all whitespace, and `a + rstrip(y)` otherwise. |
| Text.StripIgnoresPadding | app.py:38 | Adding whitespace around a text does not change what `strip` returns. |
| Text.Lower | app.py:51 | The case folding of `re.IGNORECASE`, restricted to ASCII: the result is never an upper-case letter, it is a letter exactly when the input is, and only upper-case letters change. |
| Text.LowerMatches | app.py:51 | Under the fold, two characters are equal exactly when they are the same character, or one is a capital letter and the other its own small letter (code point 32 higher), as `re.IGNORECASE` pairs them for ASCII. |
| Text.LowerIdempotent | app.py:51 | Folding twice is folding once. |
| Text.SpaceIgnoresCase | app.py:51 | Case folding never turns a whitespace character into a non-space, or back. |
| Text.TrimStartIgnoresCase | app.py:38 | Texts equal up to case lose the same leading whitespace. |
| Text.TrimEndIgnoresCase | app.py:38 | Texts equal up to case lose the same trailing whitespace. |
| Text.StripIgnoresCase | app.py:38 | Texts equal up to case strip to texts equal up to case. |
| Patterns.MatchesPrefix | app.py:42-47 | The regular-expression subset of the blocklist, matched at the front of a text, case-insensitively: literal text, `\s*`, `\s+`, an optional character and a group of alternatives tried in order. |
| Patterns.Search | app.py:51 | `re.search`: try the pattern at each start position from the left, the end of the text included. |
| Patterns.SearchFindsMatch | app.py:51 | `re.search` succeeds exactly when the pattern matches at some position of the text. |
| Patterns.MatchesPrefixExtend | app.py:51 | A match at the front of a text remains a match when more text follows. |
| Patterns.SearchInContext | app.py:51 | A match inside a text is found whatever text surrounds it. |
| Patterns.MatchesPrefixIgnoresCase | app.py:51 | Under `re.IGNORECASE`, a match at the front does not depend on letter case. |
| Patterns.SearchIgnoresCase | app.py:51 | Under `re.IGNORECASE`, whether `re.search` succeeds does not depend on letter case. |
| Patterns.MatchNeedsMinLength | app.py:42-47 | Every text matched at the front is at least as long as the pattern's shortest possible match. |
| Patterns.SearchNeedsMinLength | app.py:51 | `re.search` fails on a text shorter than the pattern's shortest possible match. |
| Patterns.SearchNeedsFirstLetter | app.py:51 | A pattern that opens with literal text can only be found where its first letter occurs, in either case. |
| Patterns.MatchLiteral | app.py:42-47 | Literal text followed by a match of the rest of the pattern is a match. |
| Patterns.MatchAnySpace | app.py:42-47 | Any run of whitespace, the empty one included, followed by a match of the rest is a match of `\s*` and the rest. |
| Patterns.MatchSomeSpace | app.py:42-47 | Any non-empty run of whitespace followed by a match of the rest is a match of `\s+` and the rest. |
| Patterns.MatchOptional | app.py:43 | The optional character, present or absent, followed by a match of the rest is a match of `c?` and the rest. |
| Patterns.MatchOneOf | app.py:42-47 | Any alternative of a group, followed by a match of the rest, is a match. |
| Sanitizer.Blocked | app.py:41-52 | The loop over the six patterns: some pattern's `re.search` succeeds on the text. |
| Sanitizer.Sanitize | app.py:32-54 | A non-string or empty input gives `None`. A success is the stripped input: it is unpadded and no pattern occurs in it. A non-empty string whose stripped text has no pattern is accepted. |
| Sanitizer.BlocklistMinLength | app.py:42-47 | Each of the six patterns needs at least seven characters to match. |
| Sanitizer.ShortTextNeverBlocked | app.py:50-52 | The blocklist never refuses a text shorter than seven characters. |
| Sanitizer.BlockedNeedsOpeningLetter | app.py:50-52 | The blocklist can refuse a text only if it holds `i`, `s`, `t`, `f`, `d` (in either case) or `<`. |
| Sanitizer.StrippedNeedsOpeningLetter | app.py:38-52 | A message without those characters is not refused after stripping either. |
| Sanitizer.RejectsMatchAnywhere | app.py:38-52 | A match of any pattern anywhere inside the stripped text makes `sanitize_input` return `None`. |
| Sanitizer.RejectsMatchIgnoringCase | app.py:38-52 | The same holds when the stripped text equals the surrounding text only up to letter case. |
| Sanitizer.SanitizeIgnoresPadding | app.py:38 | Whitespace around a non-empty message never changes the result. |
| Sanitizer.BlockedIgnoresCase | app.py:50-52 | Letter case never changes whether the blocklist refuses a text. |
| Sanitizer.SanitizeIgnoresCase | app.py:32-54 | Letter case never changes whether a message is accepted. |
| Sanitizer.SanitizeIdempotent | app.py:32-54 | Sanitizing a non-empty accepted result again returns it unchanged. |
| Sanitizer.WhitespaceOnlyYieldsEmpty | app.py:34-38 | A whitespace-only message is accepted as `""`, and sanitizing `""` gives `None`. Idempotence therefore fails on such input. |
| Sanitizer.IgnoreInstructionsTailMatches | app.py:42 | The end of the first pattern matches `previous`/`above`/`all`, a run of whitespace and `instruction`, whatever follows. |
| Sanitizer.IgnoreInstructionsMatches | app.py:42 | The first pattern matches `ignore`, a run of whitespace, any of its alternatives, a run of whitespace and `instruction`, whatever follows. |
| Sanitizer.IgnorePreviousInstructionsBlocked | app.py:42 | The blocklist refuses "ignore previous instructions". |
| Sanitizer.SystemDirectiveMatches | app.py:43 | The second pattern matches `system`, optional whitespace, an optional colon, optional whitespace and `prompt`/`message`/`shutdown`, whatever follows, and the blocklist refuses that text. |
| Sanitizer.TranslateAboveMatches | app.py:44 | The third pattern matches `translate`, whitespace, `the`, whitespace and `above`, whatever follows, and the blocklist refuses that text. |
| Sanitizer.ForgetContextMatches | app.py:45 | The fourth pattern matches `forget`, whitespace and `everything`/`all`/`previous`, whatever follows, and the blocklist refuses that text. |
| Sanitizer.ScriptTagMatches | app.py:46 | The fifth pattern matches `<`, optional whitespace and `script`, whatever follows, and the blocklist refuses that text. |
| Sanitizer.DropTableMatches | app.py:47 | The sixth pattern matches `DROP`, whitespace and `TABLE`, whatever follows, and the blocklist refuses that text. |
| Sanitizer.IgnoreInstructionsRefused | app.py:42-52 | Any message whose stripped text contains such a phrase anywhere, with any runs of whitespace, in any letter case, is refused. |
| Json.Truthy | app.py:76 | Python truthiness, used by `not text`, `not data` and `not user_msg` (app.py:34, 76, 83): `None`, `False`, zero, and empty strings, lists and dicts are falsy. |
| Chat.MessageOf | app.py:79 | `data.get("message")`: the value when the key is present, `None` otherwise. |
| Chat.SessionOf | app.py:80 | `data.get("sessionId", "anonymous")`: the value when the key is present, even `null`; "anonymous" otherwise. |
| Chat.RaisesForStatus | app.py:116 | `raise_for_status()` raises for a status from 400 to 599 and for no other status. |
| Chat.StatusOf | app.py:76-140 | Each error kind gets 400, 500, 503 or 504. It gets 400 exactly for the five validation errors. |
| Chat.Relay | app.py:105-140 | A posted request records its `Post`. It gets 200 exactly when the downstream responded with a status that `raise_for_status` lets through. A 200 carries a JSON body. Any other status carries the error kind that goes with it. |
| Chat.Chat | app.py:72-140 | A message is posted if and only if the body is an object whose `message` sanitizes to 3–500 characters. What is posted is that text, the session id and the 30-second timeout. A refused request gets 400 or 500 with an error body. The answer is 200 exactly when a post succeeded. |
| Chat.OnlyCleanMessagesForwarded | app.py:87-113 | Whatever is posted is the client's string message, stripped, unpadded, unblocked and 3–500 characters long, with the 30-second timeout. |
| Chat.ForwardedReplyIsRelayed | app.py:105-140 | Once a message is posted, the reply is what `Relay` makes of the downstream outcome. |
| Chat.RequestShapeChecks | app.py:73-84 | A falsy body gives 400 "no data". A truthy non-object gives 500. An object with a falsy or absent `message` gives 400 "message required". |
| Chat.ValidationOrder | app.py:87-113 | For a non-empty string message, checks on the stripped text run in order: blocklist (400 invalid), then over 500 (400 too long), then under 3 (400 too short). Otherwise the stripped text is posted. |
| Chat.NonStringMessageRefused | app.py:83-91 | A truthy `message` that is not a string is refused as invalid with 400. |
| Chat.SessionIdForwarding | app.py:80 | The posted session id is the request's value whenever the key is present, null included. It is "anonymous" only when the key is absent. |
| Chat.OutcomeMapping | app.py:116-140 | For a posted message, statuses map as follows. A timeout gives 504. Another request failure, or a status from 400 to 599, gives 503. Another exception gives 500. Otherwise the answer is 200, with the parsed JSON or `{"response": text}`. |
| Chat.RelayOutcomes | app.py:116-140 | The same outcome-to-answer mapping, stated for `Relay` directly. |
| Chat.RefusedWithoutDownstream | app.py:76-102 | A refused request gets the same reply whatever the downstream service would do. |
| Chat.BlockedRequestRefused | app.py:87-91 | A message whose stripped text contains a match of any of the six patterns, in any letter case and with any surrounding text, is refused with 400 invalid, however long it is. |
| Chat.IgnoreInstructionsRequestRefused | app.py:87-91 | A message containing `ignore`, whitespace, `previous`/`above`/`all`, whitespace and `instruction`, with any runs of whitespace, in any case and with any surrounding text, is refused with 400 invalid, however long it is. |
| Chat.ShortMessageRefused | app.py:99-102 | A message of at most two characters once stripped is refused as too short. This includes a whitespace-only message. |
| Chat.LongMessageRefused | app.py:94-97 | A message over 500 characters once stripped that the blocklist does not refuse is refused as too long. |
| Chat.ShortValidMessageRelayed | app.py:99-119 | A message of 3–6 characters once stripped is posted. A downstream JSON answer with a passing status comes back as it is, with 200. |
| Chat.HiRefused | app.py:99-102 | `{"message": "hi"}` gets 400 too short. |
| Chat.OverLongRefused | app.py:94-97 | A message of more than 500 `a` characters, such as 501 of them, gets 400 too long. |
| Chat.IgnorePreviousInstructionsRefused | app.py:87-91 | `{"message": "ignore previous instructions"}` gets 400 invalid. |

## Left out

- Rate limiting (app.py:24-29, 70, 149-153) is not modelled. It is configuration of the `flask_limiter` library, and its counters live inside that library.
- The downstream HTTP call is not modelled. `requests.post`, the transport timeout and `response.json()` are I/O, so their result is the input `Downstream`. The model records what would be posted: message, session id and timeout. It does not record the URL or the headers.
- Parsing the request body into JSON is not modelled. The handler receives the value `request.json` returned. When `request.json` raises instead (a malformed body; on current Flask also an absent body or a body without a JSON content type), the service answers 500 "unexpected"; the model has no input for that case.
- JSON numbers are modelled as reals. Python's `json` module also accepts `NaN` and `Infinity`, which a real cannot hold. Such a number given as `sessionId` would be forwarded; recent `requests` versions refuse to serialise it and raise `InvalidJSONError`, which the handler answers with 503. That path is not modelled.
- The `/` and `/health` routes, CORS, environment configuration, logging and `app.run` are not modelled. They hold no decision logic.
- The Spanish error messages are not modelled as text. Each one is an `ErrorKind` constructor.
- Sanitizer.SanitizeIgnoresCase: letter case is folded only for ASCII letters. `re.IGNORECASE` on `str` patterns also matches some non-ASCII letters to ASCII letters; for these six patterns the ones that matter are `ſ` (U+017F) to `s` and `ı`/`İ` (U+0131/U+0130) to `i`. A message that spells a pattern with those letters is refused by the service but accepted by the model.
- Patterns.SearchFindsMatch: matching is modelled as whether some match exists. Python's backtracking order, and which match `re.search` reports, are not modelled, because `sanitize_input` uses only whether a match exists.
- Chat.ShortValidMessageRelayed: the statement is limited to texts of 3 to 6 characters. At that length no pattern can occur. Longer accepted texts are covered by `Chat.ValidationOrder`.
- The JSON that the service sends back (`jsonify`) is not modelled as text. The reply holds the JSON value itself.

# LightsOn light worker — a verified model

This project models the request path of the LightsOn light worker
(`backend/main.py`), the FastAPI service behind `POST /set-color`, in Dafny:

- the `ColorPayload` body check. Its regular expression
  `^(#(?:[0-9A-Fa-f]{6}|[0-9A-Fa-f]{3})|[a-z]+)$` is written out as data
  with its language semantics. The predicate the handler uses is proved to
  accept exactly that language (`color_payload.dfy`);
- `hex_to_rgb`, as Python runs it: strip leading `#`, take the clamped
  slices `[0:2]`, `[2:4]` and `[4:6]`, read each with `int(_, 16)`, and
  divide by 255 (`hex_color.dfy`, on top of the Python string operations in
  `strings.dfy`);
- the caller check `verify_cloud_task`: the `Authorization` header, its
  `split(" ")`, the OIDC verifier's outcome and the email comparison
  (`cloud_task_auth.dfy`);
- the handler `set_color`: the payload, caller and colour decisions, the
  comma-split light ids, one URL per id, one shared body, and the loop that
  sends a `PUT` per light in list order and stops at the first failing
  response (`set_color.dfy`). The Hue bridge is a class. It gives an abstract
  answer to the n-th request it receives, logs every request, and keeps the
  state body last applied at each light URL.

`wrappers.dfy` holds the `Option`, `Result` and `Outcome` datatypes.

The loop sends the requests one after the other and lets `raise_for_status`
escape, which FastAPI answers with 500.

The pattern is modelled as a full match with `$` meaning end of text. That is
how the Rust regex engine behind pydantic v2's `constr(pattern=...)` reads
it; Python's `re` would also accept one trailing newline.

## Model

| member | source | states |
|---|---|---|
| `ColorPayload.ValidColorMatchesPattern` | backend/main.py:14-18 | a string fully matches the payload pattern iff it is `#` plus six hex digits (either case), `#` plus three hex digits, or one or more of `a`-`z` |
| `Strings.Split` | backend/main.py:33 | `split(sep)` yields at least one piece and no piece contains the separator |
| `Strings.JoinSplit` | backend/main.py:98 | joining the pieces of `split(sep)` with `sep` gives back the original string, so empty entries are kept and order is preserved |
| `Strings.SplitJoin` | backend/main.py:33-34 | separator-free pieces joined and split again are exactly those pieces (split is the inverse of join) |
| `Strings.SplitCount` | backend/main.py:98 | there is exactly one more piece than there are separators |
| `Strings.LStrip` | backend/main.py:52 | `lstrip("#")` returns a suffix, everything removed was `#`, and the result does not start with `#` |
| `Strings.StripIdempotent` | backend/main.py:92 | stripping `#` twice equals stripping once |
| `Strings.Slice` | backend/main.py:53-55 | `s[i:j]` has the characters at positions in [i, j) that exist, and never fails |
| `HexColor.ParseHex` | backend/main.py:53-55 | `int(t, 16)` succeeds iff `t` is non-empty and all hex digits, with a value below 16^len(t) |
| `HexColor.HexValue` | backend/main.py:53-55 | the base-16 value of n digits is below 16^n |
| `HexColor.HexToRgbInUnitCube` | backend/main.py:50-56 | every successful conversion has all three channels in [0, 1] |
| `HexColor.HexToRgbSucceedsIff` | backend/main.py:52-55 | the conversion succeeds iff at least five characters remain after stripping `#` and the first (up to) six are hex digits |
| `HexColor.LongFormChannels` | backend/main.py:50-56 | every validated `#RRGGBB` converts, each channel being its two-digit value over 255 |
| `HexColor.ShortFormFails` | backend/main.py:52-55 | every validated `#RGB` fails to convert, with or without the leading `#` |
| `HexColor.DoubleStrip` | backend/main.py:92 | stripping `#` before the call, as the handler does, does not change the result |
| `HexColor.ColorNameParsesIff` | backend/main.py:52-55 | a lower-case colour name converts iff it has at least five letters and its first five or six are in `a`-`f` |
| `HexColor.ColorNameExamples` | backend/main.py:50-56 | `decade` converts to (222, 202, 222)/255; `red` and `blue` fail |
| `HexColor.TrailingIgnored` | backend/main.py:53-55 | characters after the sixth one past the `#` run do not change the result |
| `HexColor.CaseInsensitive` | backend/main.py:53-55 | lower-casing the input never changes the result |
| `HexColor.FormatParseRoundTrip` | backend/main.py:50-56 | three bytes formatted as `#rrggbb` pass the pattern and convert back to exactly r/255, g/255, b/255 |
| `HexColor.ExpandShortForm` | backend/main.py:92 | the corrected call site turns every `#RGB` into a `#RRGGBB` |
| `HexColor.ColorToRgbAgreesOffShortForm` | backend/main.py:92 | off the `#RGB` form, the corrected conversion is the one the handler runs as written |
| `HexColor.ShortFormChannels` | backend/main.py:92 | under the correction, `#RGB` converts to 17 times each digit over 255 |
| `HexColor.ColorToRgbAcceptsHexForms` | backend/main.py:92 | under the correction, every hex form the pattern accepts converts |
| `HexColor.ShortFormExample` | backend/main.py:17 | `#f00` passes the pattern and makes the conversion raise, as written |
| `CloudTaskAuth.BearerToken` | backend/main.py:29-37 | a missing or empty header is exactly the "missing header" rejection, and an extracted token never contains a space |
| `CloudTaskAuth.BearerTokenIff` | backend/main.py:33-37 | the header yields token `t` iff it is `"Bearer " + t` and `t` has no space |
| `CloudTaskAuth.EmptyTokenPassesHeaderCheck` | backend/main.py:33-37 | `"Bearer "` passes the header check with the empty token |
| `CloudTaskAuth.DoubleSpaceRejected` | backend/main.py:33-35 | `"Bearer  t"` splits into three or more parts and is malformed |
| `CloudTaskAuth.CallerAcceptedIff` | backend/main.py:29-48 | a caller is accepted iff the header is `Bearer ` plus a space-free token, the verifier accepts it for the audience, and the claims' email is the configured account |
| `SetColor.RejectedCallerIs403` | backend/main.py:24-48 | a valid payload from a rejected caller is answered 403 |
| `SetColor.PlanShape` | backend/main.py:88-100 | the handler only goes on for a valid payload from an accepted caller; it targets the comma-split ids (their join is the configured string, one more than the commas) with the body `{on: true, bri: 254, xy}` |
| `SetColor.HexColorsReachLights` | backend/main.py:89-93 | with the correction, an accepted caller with a `#RRGGBB` or `#RGB` colour always reaches the lights |
| `SetColor.LightUrlInjective` | backend/main.py:104 | two light ids get the same URL iff they are equal |
| `SetColor.ApplyAllUniform` | backend/main.py:100-106 | after successful puts of one body, every URL sent holds that body and every other light keeps its state |
| `SetColor.LeadingSuccesses` | backend/main.py:103-106 | the requests before index k all succeed, and the k-th (if any) fails |
| `SetColor.HueBridge.Put` | backend/main.py:105-106 | the request is logged, and the light state changes only on a successful answer |
| `SetColor.FanOut` | backend/main.py:102-106 | requests go out in list order up to and including the first failure and none after it; exactly the lights before the failure get the new body; the failing index is returned |
| `SetColor.HandleSetColor` | backend/main.py:87-108 | (with the `#RGB` expansion) a rejected request never contacts the bridge; otherwise the response names the first failing light, or lists every configured id |
| `SetColor.UntouchedLights` | backend/main.py:103-106 | after a run that stopped at light k, any light not among the first k ids keeps its former state |
| `SetColor.UpdatedLights` | backend/main.py:103-106 | after a run that stopped at light k, each of the first k lights holds the new body |

## Left out

- `rgb_to_xy` (backend/main.py:58-79) uses floating-point gamma correction and a matrix product. It is the parameter `toXy`, and only its result pair is carried into the request body.
- `id_token.verify_oauth2_token` and the Google transport are a foreign library call. They are the parameter `verify`, which fails (`ValueError`) or returns the claims. Other exceptions it may raise, which would answer 500, are not modelled.
- Claims are string-valued. A non-string `email` claim, which never equals the configured account, is not represented.
- The environment variables are the `Config` record. A missing variable (a `KeyError`, answered 500) is not modelled.
- The `httpx` client is the `HueBridge` object. A timeout or transport error counts as a failing answer. A failing request is assumed to leave the light as it was.
- HexColor.HexToRgbInUnitCube: channels are exact reals n/255, without the rounding of IEEE doubles.
- HexColor.ParseHex: `int(_, 16)` also accepts surrounding whitespace, a sign, underscores and non-ASCII digits. The payload pattern never lets these through, so the parser is modelled on hex digits only.
- Pydantic's other body checks (a missing or non-string `color`, answered 422) are not modelled; only the pattern is.
- Header names are matched case-insensitively by the framework; the header is modelled as already looked up.
- The handler is `async`. Concurrent requests to the bridge are not modelled.
- `LightsOn/main.py` (the Flask page and Cloud Tasks enqueueing, including its "color required" 400 check) is plumbing around a client library and is not part of this model. The camera capture and the Simon Says game are not in these files.

## Findings

| source | as written | input that shows it | evidently intended | confidence | as-written member | corrected member |
|---|---|---|---|---|---|---|
| backend/main.py:17 | the pattern accepts `#RGB`, but `hex_to_rgb` slices positions 4-6 of the three remaining digits, gets `""`, and `int("", 16)` raises, so the request fails with 500 | `#f00` | expand `#RGB` to `#RRGGBB` before converting, so `#f00` is pure red | high; not executed | `HexColor.ShortFormFails` | `HexColor.ColorToRgbAcceptsHexForms` |

The handler model (`SetColor.PlanSetColor`) converts with the corrected
`HexColor.ColorToRgb`. `HexColor.ColorToRgbAgreesOffShortForm` shows that
this differs from the code as written only on `#RGB` inputs. Lower-case
names such as `red` also pass the pattern and then fail to convert (500);
without a name table in the code there is no evident intended value, so
the model keeps that behaviour.

# kohana-captcha: session counters, validation and text challenges

This project models the core of the Kohana captcha module. A captcha issues a
challenge and keeps the hash of its upper-cased answer in the user's session.
It later validates a response against that hash. It counts valid and invalid
responses per session, at most one count per page load. A session whose valid
count reaches the configured threshold is "promoted": every later response
passes.

Modules:

- `Text`: PHP's `strtoupper`/`strtolower` (ASCII) and the decimal form of an integer.
- `Config`: the class-wide defaults of `Captcha::$config` and the merge of a
  configuration group over the default group.
- `Session`: the session store as a map, the two counters and the stored
  hash, the promotion rule, and one call of `valid` as a function. It also
  holds the lemmas about runs of calls within one page load and over several
  page loads.
- `CaptchaCore`: class `Captcha`. Its fields are the configuration, the session
  store, the current answer and the once-per-page-load flag. Its methods
  (`Construct`, `UpdateResponseSession`, `Valid`, `ValidCount`, `InvalidCount`,
  `ResetCount`) are proved against the `Session` and `Config` functions.
- `Images`: `image_type`.
- `MathDriver`: class `MathCaptcha` and its operand tiers, prompt and sum. The
  prompt is proved to parse back to exactly its operands.
- `RiddleDriver`: class `RiddleCaptcha`. It picks a riddle, keeps the question
  and returns the answer verbatim.
- `Challenge`: the step where the captcha keeps the answer its driver
  generated (classes/captcha.php line 135).

External things become parameters. SHA-1 is the `hash` function the captcha is
built with; nothing is assumed about it. Each `mt_rand` result is an element of
`draws`, constrained to the range the source asks for. The `array_rand` pick is
the index `pick`. The riddle list of the current language is the `riddles`
argument. The configuration file is the `groups` map.

Behaviour of the source worth noting:

- The math prompt ends in `" = "` (space, equals sign, space)
  (classes/kohana/captcha/math.php line 42).
- The complexity is only compared with 4 and 7, so any value below 4,
  including zero or a negative one, selects the easy tier (math.php line 22).
- When no answer hash is stored, `valid` does not fail: the comparison is
  FALSE and, on the first call of the page load, it counts an invalid
  response (classes/captcha.php lines 165-181).
- The answer hash is written by `update_response_session`, which
  `instance()` registers as a shutdown function (classes/captcha.php lines
  58 and 143-146). A challenge issued in a request can therefore only be
  checked in a later one.

## Model

| member | source | states |
|---|---|---|
| `Text.Upper` | classes/captcha.php:146 | `strtoupper` keeps the length and maps each character to its upper-case form |
| `Text.Lower` | classes/captcha.php:285 | `strtolower` keeps the length and maps each character to its lower-case form |
| `Text.UpperIdempotent` | classes/captcha.php:165 | upper-casing an upper-cased string changes nothing |
| `Text.LowerIdempotent` | classes/captcha.php:285 | lower-casing a lower-cased string changes nothing |
| `Text.UpperOfLower` | classes/captcha.php:165 | `strtoupper(strtolower(s)) == strtoupper(s)` |
| `Text.UpperOfDigits` | classes/captcha.php:146 | upper-casing leaves a string of digits (a math answer) unchanged |
| `Text.Decimal` | classes/kohana/captcha/math.php:42 | the decimal form of a natural number is non-empty, all digits and has no leading zero |
| `Text.DecimalRoundTrip` | classes/kohana/captcha/math.php:42 | reading back the decimal form of `n` gives `n` |
| `Config.Inherited` | classes/captcha.php:83-97 | a missing group fails naming itself; a missing default (for another group) fails naming "default"; otherwise the group's keys win and the default fills in the rest |
| `Config.Overlay` | classes/captcha.php:99-106 | only keys `Captcha::$config` already has are written, taking the merged value when the merged group has the key |
| `Config.Configure` | classes/captcha.php:76-109 | fails exactly when the group or its default is missing; on success the keys are the old keys plus "group", which holds the group name ("default" when none is given) |
| `Config.GroupWinsOverDefault` | classes/captcha.php:77-106 | for any group that loads, "default" included: a known key takes the group's value, else the default's, else keeps its old value |
| `Config.OnlyKnownKeys` | classes/captcha.php:99-109 | a key the configuration did not know is never added |
| `Session.CounterKey` | classes/captcha.php:194-197 | the invalid flag selects `captcha_invalid_count`, otherwise `captcha_valid_count` |
| `Session.CounterOf` | classes/captcha.php:219-220 | a missing counter reads 0; a well-formed counter is never negative |
| `Session.SetCounter` | classes/captcha.php:199-216 | a value below 1 deletes the key and reads back 0; any other value reads back unchanged; no other key changes |
| `Session.ResetCounters` | classes/captcha.php:239-243 | both counters are deleted and read 0; every other session entry is kept |
| `Session.StoreResponse` | classes/captcha.php:143-147 | the session holds the hash of the upper-cased answer and nothing else changes |
| `Session.Matches` | classes/captcha.php:165 | a response matches exactly when a hash is stored and storing the response's hash would leave the session unchanged |
| `Session.LooseAtLeast` | classes/captcha.php:264 | the `>=` of captcha.php:264 for integer, NULL, boolean and array thresholds: numeric for an integer, always true for NULL or FALSE, "count is non-zero" for TRUE, never for an array; a string threshold is never reached |
| `Session.Promoted` | classes/captcha.php:251-265 | never when promotion is FALSE; otherwise valid count >= the given threshold, or the configured threshold, compared as `LooseAtLeast` does |
| `Session.PromotionMonotonic` | classes/captcha.php:251-265 | a reached threshold stays reached while the valid count does not drop |
| `Session.Bump` | classes/captcha.php:167-182 | a pass adds 1 to the valid counter, a failure adds 1 to the invalid counter; nothing else changes |
| `Session.ValidCall` | classes/captcha.php:155-185 | promoted: TRUE and nothing changes; otherwise the result is the hash comparison; an already-counted page load changes nothing; an uncounted one bumps one counter and sets the flag |
| `Session.CaseInsensitive` | classes/captcha.php:165 | `valid(r)`, `valid(strtoupper(r))` and `valid(strtolower(r))` give the same result and state |
| `Session.AnswerPasses` | classes/captcha.php:143-165 | after the answer's hash is stored, the answer passes in any case and raises the valid count by one |
| `Session.FrozenPage` | classes/captcha.php:157-184 | after the page load counted, or when promoted, further calls change nothing and return TRUE-if-promoted or their own comparison |
| `Session.AtMostOneCount` | classes/captcha.php:157-184 | any run of calls in one page load raises exactly one counter by exactly one, chosen by the first call's result; each call returns its own comparison, or TRUE once the count promoted the session |
| `Session.CorrectPagesReachThreshold` | classes/captcha.php:143-185 | page loads whose first response answers the current challenge (the stored one, then the one each page issued and stored at its end) raise the valid count by one each up to an integer threshold and not beyond it |
| `Session.PromotedAfterThresholdPages` | classes/captcha.php:143-265 | from no counts, threshold-many page loads each answering its current challenge promote the session; then any response passes without a change |
| `CaptchaCore.Captcha.constructor` | classes/captcha.php:19-30 | a new page load starts from the class defaults, the given session and an unset counting flag |
| `CaptchaCore.Captcha.Construct` | classes/captcha.php:71-109 | the configuration becomes `Configure` of the old one; on a missing group it fails and nothing changes |
| `CaptchaCore.Captcha.UpdateResponseSession` | classes/captcha.php:143-147 | the session becomes `StoreResponse` of the old session and the current answer |
| `CaptchaCore.Captcha.Valid` | classes/captcha.php:155-185 | result, new session and new flag are exactly those of `ValidCall` |
| `CaptchaCore.Captcha.ValidCount` | classes/captcha.php:194-221 | without an argument it returns the counter and changes nothing; with one it returns the argument, even a negative one, and sets the counter as `SetCounter` does |
| `CaptchaCore.Captcha.InvalidCount` | classes/captcha.php:229-232 | the same accessor, on the invalid counter only |
| `CaptchaCore.Captcha.ResetCount` | classes/captcha.php:239-243 | the session becomes `ResetCounters` of the old one |
| `Images.LastDot` | classes/captcha.php:285 | finds the last '.' when there is one and reports none otherwise |
| `Images.Extension` | classes/captcha.php:285 | the result holds no '.'; it is "" when the name has no '.', and otherwise the name ends with '.' followed by it |
| `Images.ExtensionOfName` | classes/captcha.php:285 | the extension of `stem.ext` is `ext` when `ext` has no '.' |
| `Images.ImageType` | classes/captcha.php:283-300 | "png", "gif" and "jpeg" exactly for the lower-cased extensions png, gif and jpg/jpeg; FALSE otherwise |
| `Images.NoDotNoType` | classes/captcha.php:283-300 | a name without '.' has no image type |
| `Images.ImageTypeOfName` | classes/captcha.php:283-300 | the type depends only on the text after the last '.', in any letter case |
| `MathDriver.TierOf` | classes/kohana/captcha/math.php:22-39 | easy below 4, normal from 4 to below 7, difficult from 7 |
| `MathDriver.Sum` | classes/kohana/captcha/math.php:45 | `array_sum`: with non-negative operands no operand exceeds the sum; positive operands sum to at least their number |
| `MathDriver.Join` | classes/kohana/captcha/math.php:42 | `implode(' + ', ..)`: empty exactly for no operands; for non-negative operands only digits, spaces and '+', starting and ending with a digit |
| `MathDriver.PromptRoundTrip` | classes/kohana/captcha/math.php:41-42 | the exercise parses back to exactly its operands, in order |
| `MathDriver.AnswerBounds` | classes/kohana/captcha/math.php:21-45 | the sum lies in [2,9], [11,30] or [111,230] by tier |
| `MathDriver.MathCaptcha.constructor` | classes/kohana/captcha/math.php:12 | no exercise is kept yet |
| `MathDriver.MathCaptcha.GenerateChallenge` | classes/kohana/captcha/math.php:19-57 | two operands below complexity 7, three from 7; the answer is their sum, within the tier's bounds; the kept exercise (what `render` returns for either argument) is the operands joined by " + " and closed by " = ", and it parses back to them |
| `MathDriver.MathCaptcha.Render` | classes/kohana/captcha/math.php:54-57 | returns the exercise kept by the last `generate_challenge`, whatever the argument |
| `RiddleDriver.RiddleCaptcha.constructor` | classes/kohana/captcha/riddle.php:12 | no question is kept yet |
| `RiddleDriver.RiddleCaptcha.GenerateChallenge` | classes/kohana/captcha/riddle.php:19-43 | the picked riddle's question is kept for `render` and its answer returned verbatim; only the question field changes; an empty list fails and changes nothing |
| `RiddleDriver.RiddleCaptcha.Render` | classes/kohana/captcha/riddle.php:40-43 | returns the question kept by the last `generate_challenge`, whatever the argument |
| `Challenge.IssueMath` | classes/captcha.php:134-135 | the captcha keeps the decimal sum as its answer and the driver the exercise of the same operands |
| `Challenge.IssueRiddle` | classes/captcha.php:134-135 | the captcha keeps the picked riddle's answer and the driver its question |
| `Challenge.MathAnswerPasses` | classes/kohana/captcha/math.php:45 | once stored, the digits of a math answer hash unchanged and pass on an unpromoted session, counting one valid response |

## Left out

- Image drawing (`image_create`, `image_gradient`, `image_render`): GD library calls, floating-point colour steps and HTML/HTTP output.
- The singleton `instance`, the dynamic driver class name and `register_shutdown_function`: the model works on one `Captcha` object, and the shutdown-time hash write is the explicit call `UpdateResponseSession`.
- The background and font checks of the constructor (`realpath`, `is_file`): filesystem I/O.
- SHA-1, `mt_rand` and `array_rand` themselves: the hash is an arbitrary function and the random values are parameters.
- `Session::instance`, `Kohana::config` and `Kohana::lang`: replaced by the `session` map field and the `groups` and `riddles` arguments. A configuration group that exists but is not an array is modelled as a missing group.
- `__toString` and the abstract driver declarations: plumbing only.
- Concurrent requests on one session: the model is sequential.
- Session.LooseAtLeast, Session.Promoted: a threshold configured as a string is treated as never reached. PHP compares an integer with a numeric string as numbers and with any other string as text, so `5 >= "3"` and `5 >= ""` hold in PHP but not in the model. Only string thresholds differ: integer, NULL, boolean and array thresholds follow PHP.
- Session.CounterOf: a counter key holding a string reads as 0, where PHP would read its leading digits. Counters are only ever written as integers, so this case does not arise.
- CaptchaCore.Captcha.ValidCount: the new value is an integer; PHP's `(int)` cast of other argument types is not modelled.
- Challenge.IssueMath: requires the configured complexity to be an integer; PHP's loose comparison of a non-integer complexity with 4 and 7 is not modelled.
- Text.Upper: ASCII case mapping only; the locale-dependent `strtoupper`/`strtolower` of PHP before 8.2 is not modelled.
- RiddleDriver.RiddleCaptcha.GenerateChallenge: an empty riddle list is a failure, as PHP 8's `array_rand` throws. The warning and NULL riddle of older PHP versions are not modelled.

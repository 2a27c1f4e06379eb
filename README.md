# macos-media-log-stream: the comma-token classifier

The repository has two scripts. Each reads lines of comma-separated event tokens
from standard input, such as `mic:built-in,cam:webcam1`, and reacts to token prefixes:

- `homeassistant-media-toggle.py` prints "Media is active" when some distinct token starts
  with `cam:` or `mic:`, and "Media is not active" otherwise. It then asks Home Assistant to
  turn the on-air light on or off (`POST <base>/api/services/light/turn_on|turn_off`). It does
  this for every line, even when the flag is the same as on the previous line.
- `callbacks/sample.py` prints how many distinct tokens a line has, then prints
  "Microphone is active" once if some distinct token starts with `mic:`.

The model has four modules:

- `Tokens` (tokens.dfy) holds the string operations both scripts use. These are Python's
  `str.split` with one separator (`Split`, inverse `Join`), `set(...)` (`Elements`, `Items`),
  `str.startswith` (`StartsWith`) and substring search (`Contains`).
- `Decimal` (decimal.dfy) holds Python's `str(n)` for the count in the message, with its
  inverse `Value`.
- `MediaToggle` (media_toggle.dfy) models the toggle script. Its output is a trace of effects
  in the order the script performs them: `Print(text)` for a printed line and `Post(request)`
  for the request to Home Assistant. `MediaEvent` builds the request from the flag.
- `SampleCallback` (sample_callback.dfy) models the sample callback. Its output is the
  sequence of printed lines.

Each script's per-line loop body is a method (`HandleLine`). Its `for item in items: ... break`
loop is a `while` loop that takes items from the remaining set in an arbitrary order and stops
at the first match. That method is proved equal to a specification function (`LineEffects`,
`LineOutput`), and the lemmas are stated about that function. The `while True: input()` loop
is `Run`, which runs over a finite sequence of lines. It is proved equal to the banner followed
by the per-line outputs, each line handled on its own.

Python's `str.split(',')` always produces at least one piece, and the model proves this
(`Split`, `UniqueCount`).

## Model

| member | source | states |
|---|---|---|
| Tokens.Split | homeassistant-media-toggle.py:25 | splitting gives one more piece than the line has commas (so never an empty list), and no piece contains a comma |
| Tokens.JoinSplit | homeassistant-media-toggle.py:25 | joining the pieces with `,` gives back the original line |
| Tokens.SplitJoin | homeassistant-media-toggle.py:25 | splitting a `,`-join of comma-free tokens gives back those tokens, empty ones included |
| Tokens.SplitWithoutSeparator | homeassistant-media-toggle.py:25 | a line without a comma splits into itself alone |
| Tokens.Elements | homeassistant-media-toggle.py:25 | `set(xs)` holds exactly the elements of `xs` and has no more members than `xs` has entries |
| Tokens.Items | homeassistant-media-toggle.py:25 | the distinct items of a line number at least one and at most one more than its commas |
| Tokens.StartsWithConcat | homeassistant-media-toggle.py:29 | `s.startswith(prefix)` holds exactly when `s` is `prefix` followed by some (possibly empty) rest |
| Tokens.ItemsWithoutComma | callbacks/sample.py:7 | a line without a comma has itself as its only item |
| Tokens.ItemsOfJoin | homeassistant-media-toggle.py:25 | the items of a line are the set of tokens it lists, whatever their order or repetition |
| Tokens.PieceOccurs | homeassistant-media-toggle.py:25 | every piece of a split line occurs as a substring of the line |
| Tokens.PrefixOfItemOccurs | homeassistant-media-toggle.py:29 | a prefix of any item of a line occurs as a substring of the line |
| Decimal.ToString | callbacks/sample.py:9 | the count is formatted as one or more decimal digits, with no leading zero |
| Decimal.ValueOfToString | callbacks/sample.py:9 | reading the formatted count back gives the count |
| Decimal.ToStringInjective | callbacks/sample.py:9 | different counts are formatted differently |
| MediaToggle.MediaEvent | homeassistant-media-toggle.py:12-13 | the action is `on` exactly when the state is true and `off` otherwise; the URL is the base URL, then `/api/services/light/turn_`, then the action |
| MediaToggle.MediaEventUrlDeterminesState | homeassistant-media-toggle.py:12-13 | the URL alone tells which state was requested |
| MediaToggle.IsMediaItem | homeassistant-media-toggle.py:29 | an item with a `cam:` or `mic:` prefix has at least four characters, so the empty item never activates |
| MediaToggle.NotMediaItemByFirstChar | homeassistant-media-toggle.py:29 | an item that is empty or starts with neither `c` nor `m` is not a media item |
| MediaToggle.MediaActive | homeassistant-media-toggle.py:25-31 | the flag holds exactly when some piece of the split line, before duplicates are removed, has a `cam:` or `mic:` prefix |
| MediaToggle.StatusMessage | homeassistant-media-toggle.py:33-36 | the status is "Media is active" exactly when the flag holds and "Media is not active" exactly when it does not |
| MediaToggle.LineEffects | homeassistant-media-toggle.py:33-38 | a line gives one print and then one request, and the request turns the light on exactly when the print says "Media is active" |
| MediaToggle.LinesEffects | homeassistant-media-toggle.py:23-38 | n lines give exactly 2n effects |
| MediaToggle.ScanItems | homeassistant-media-toggle.py:27-31 | the loop with `break` returns true exactly when some item has a `cam:` or `mic:` prefix, whatever order it visits the set in |
| MediaToggle.HandleLine | homeassistant-media-toggle.py:24-38 | one line gives its status message, then one request carrying its flag |
| MediaToggle.Run | homeassistant-media-toggle.py:21-38 | the trace is the banner followed by the effects of each line in turn |
| MediaToggle.StatusMessageOfLine | homeassistant-media-toggle.py:33-38 | each line gives exactly one print and then one request; the print says "Media is active" exactly when the line is active, and "Media is not active" exactly when it is not |
| MediaToggle.LinesEffectsStep | homeassistant-media-toggle.py:23-38 | handling one more line appends exactly that line's effects |
| MediaToggle.LinesEffectsAt | homeassistant-media-toggle.py:23-38 | n lines give 2n effects; effects 2i and 2i+1 are line i's status and a request with line i's own flag, whatever the previous line's flag was |
| MediaToggle.LinesEffectsAppend | homeassistant-media-toggle.py:23-38 | no state carries between lines: the effects of concatenated inputs are the concatenated effects |
| MediaToggle.SameTokensSameEffects | homeassistant-media-toggle.py:25-31 | lines that list the same set of tokens, in any order and with any repetition, give the same effects |
| MediaToggle.InactiveWithoutTags | homeassistant-media-toggle.py:29 | a line in which neither `cam:` nor `mic:` occurs is inactive |
| MediaToggle.CameraLine | homeassistant-media-toggle.py:25-38 | a line holding one token `cam:<name>` prints "Media is active" and posts to `.../turn_on` |
| MediaToggle.SpeakerInactive | homeassistant-media-toggle.py:25-31 | a line holding one token `speaker:<name>` is not active |
| MediaToggle.SpeakerLine | homeassistant-media-toggle.py:33-38 | a line holding one token `speaker:<name>` prints "Media is not active" and still posts to `.../turn_off` |
| MediaToggle.EmptyLine | homeassistant-media-toggle.py:25-31 | the empty line has the single item `""` and is inactive |
| SampleCallback.UniqueCount | callbacks/sample.py:7-9 | the reported count is at least 1 and at most the number of commas plus one |
| SampleCallback.CountMessage | callbacks/sample.py:9 | the count message can never be the microphone message |
| SampleCallback.MicTagIsMicItem | callbacks/sample.py:11 | every token `mic:<name>` reports a microphone |
| SampleCallback.IsMicItem | callbacks/sample.py:11 | an item with the `mic:` prefix has at least four characters, so the empty item never reports a microphone |
| SampleCallback.MicActive | callbacks/sample.py:10-12 | a microphone is reported exactly when some piece of the split line, before duplicates are removed, starts with `mic:` |
| SampleCallback.LineOutput | callbacks/sample.py:9-13 | a line prints its count message first, then one more line exactly when a microphone item is present, and that line is "Microphone is active" |
| SampleCallback.LinesOutputStep | callbacks/sample.py:5-13 | handling one more line appends exactly that line's output |
| SampleCallback.HandleLine | callbacks/sample.py:6-13 | one line prints its count message, then the microphone message when it has a microphone item; the loop's `break` and the set's order do not matter |
| SampleCallback.Run | callbacks/sample.py:3-13 | the output is the banner followed by the output of each line in turn |
| SampleCallback.MicrophoneMessageOnce | callbacks/sample.py:9-13 | the count message comes first; "Microphone is active" is printed once when some item starts with `mic:` and not at all otherwise |
| SampleCallback.UniqueCountOfTokens | callbacks/sample.py:7-9 | the count is the number of distinct tokens the line lists, empty tokens included |
| SampleCallback.SameTokensSameOutput | callbacks/sample.py:7-13 | lines listing the same set of tokens print the same lines |
| SampleCallback.SilentWithoutMicTag | callbacks/sample.py:11 | a line in which `mic:` does not occur never reports a microphone |
| SampleCallback.LinesOutputAppend | callbacks/sample.py:5-13 | no state carries between lines: the output of concatenated inputs is the concatenated output |
| SampleCallback.LinesOutputLength | callbacks/sample.py:5-13 | n lines print between n and 2n lines |
| SampleCallback.EmptyLine | callbacks/sample.py:7-9 | an empty line reports a count of 1 and no microphone |
| SampleCallback.CountMessageOfOne | callbacks/sample.py:9 | a count of 1 prints "1 unique services were received!" |
| SampleCallback.RepeatedToken | callbacks/sample.py:7 | `a,a` and `a` both report a count of 1 |
| SampleCallback.TwoMicrophones | callbacks/sample.py:9-13 | `mic:<x>,mic:<y>` with different comma-free names prints a count of 2 and "Microphone is active" once |
| SampleCallback.TwoMicrophoneItems | callbacks/sample.py:7 | `mic:<x>,mic:<y>` with comma-free names has exactly the items `mic:<x>` and `mic:<y>` |
| SampleCallback.TwoMicrophoneCount | callbacks/sample.py:7-9 | `mic:<x>,mic:<y>` with different comma-free names has two distinct items |
| SampleCallback.TwoMicrophoneActive | callbacks/sample.py:10-12 | `mic:<x>,mic:<y>` with comma-free names has a microphone item |

## Left out

- Reading standard input. `input()` becomes a sequence of lines given to `Run`. The endless
  `while True` loop, which ends with an unhandled end-of-file error, is modelled as running
  over a finite input.
- The HTTP call in `mediaEvent` (homeassistant-media-toggle.py:14-15). This is network I/O
  through a foreign library. The model records the request as a `Post` effect with its action
  and URL. It leaves out the bearer-token and content-type headers, the JSON body naming
  `ENTITY_ID`, and its UTF-8 encoding, so `TOKEN` and `ENTITY_ID` do not appear.
- The bare `except` that prints "Failed to send event to Home Assistant"
  (homeassistant-media-toggle.py:16-17). It only reports failures of that network call, which
  is not modelled. As shipped, `TOKEN` is empty (homeassistant-media-toggle.py:4), so Home
  Assistant rejects the request as unauthorised, `urlopen` raises, and the script prints that
  failure message after the status on every line. The "one print and one request per line"
  statements of `LineEffects`, `StatusMessageOfLine` and `LinesEffects` hold of the model, which
  assumes the request succeeds.
- `print` as a side effect. Printed lines are returned as a sequence instead.
- The iteration order of Python's `set`. The loops pick items in an arbitrary order, and their
  contracts hold for every order.
- Input decoding is not modelled. Lone surrogates, which a Python `str` can hold, have no
  Dafny `char`.

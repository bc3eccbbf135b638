# ASR transcription job, modelled in Dafny

This project models the `ASR` class of `lib/asr.py`, a client for a remote
file-transcription service. An `ASR` object is one job. It is created from
the URL of an audio file and submitted as a task (`upload`), which sets its
task id. It is then polled until the service reports a final status
(`polling`), which sets its data. Finally it is rendered to files by path
suffix (`to`, `to_srt`, `to_txt`, `to_backup`).

A job can also be restored from a backup file (`from_backup`). `_time`
turns a millisecond count into an SRT time code.

Modules, one per component:

- `TimeCode` (timecode.dfy): `_time` and its generator loop. It splits a
  count by 1000, 60, 60, 60 and renders the fields as `HH:MM:SS,mmm`.
  - Python's `%` and `//` with a positive divisor are Dafny's `%` and `/`,
    so every integer is covered, negative ones included.
  - The loop also reduces the hour field modulo 60, so hours wrap at 60 and
    the time code is exact only below 216000000 ms (60 hours). The model
    follows this code rather than a reading with unbounded hours.
- `Transcript` (transcript.dfy): the decoded reply payloads: status, task
  id, and the sentences of `Result.Sentences`.
- `Sorting` (sorting.dfy): `sorted(..., key=BeginTime)` as a stable
  insertion sort. `SortUnique` proves that being sorted and stable
  determines the result, so any stable sort gives the same sequence.
- `Render` (render.dfy): the SRT and TXT renderers, the backup record,
  pathlib's `suffix`, and the mapper that `to` builds from the class's
  attribute names beginning with `to_`. It also holds `RenderAll`, the meaning
  of `to` over a list of paths.
- `Polling` (polling.dfy): the specification of `polling` over a finite
  script of transport outcomes.
- `Asr` (asr.dfy): the classes.
  - `Asr` has the fields `url`, `data` and `taskId`, and methods for
    `__init__`, `from_backup`, `upload`, `polling`, `to`, `to_srt`, `to_txt`
    and `to_backup`.
  - `Client` is the transport: a script of outcomes and a log of requests.
  - `Clock` is `time.sleep`.
  - `FileSystem` is a map from path to content.

## Model

| member | source | states |
|---|---|---|
| TimeCode.Generate | lib/asr.py:130-133 | the generator yields exactly `Split(t, [1000, 60, 60, 60])`. The loop keeps the invariant that what it has yielded, followed by the split of what is left, is the split of the input |
| TimeCode.Time | lib/asr.py:129-136 | `_time(t)` is `TimeCodeOf(t)`: the four yielded fields, zero-padded to widths 2, 2, 2 and 3 in the default pattern |
| TimeCode.Digits | lib/asr.py:98 | `str(n)` of a non-negative integer: its decimal digits, without leading zeros, "0" for zero |
| TimeCode.Padded | lib/asr.py:94 | `{n:0w}`: the digits of n left-filled with '0' up to width w, and left as is when already wider |
| TimeCode.Format | lib/asr.py:94 | the pattern `{h:02}:{m:02}:{s:02},{ms:03}` filled in with the four fields |
| TimeCode.TimeCodeOf | lib/asr.py:129-136 | the string `_time(t)` returns: the fields of t, formatted with the default pattern |
| TimeCode.Split | lib/asr.py:130-133 | one remainder per divisor, each `0 <= r[i] < ds[i]` |
| TimeCode.FieldsOf | lib/asr.py:135 | `ms < 1000`, and `s`, `m` and `h` are each below 60 and non-negative |
| TimeCode.FieldsFormula | lib/asr.py:130-135 | `ms = t % 1000`, `s = (t / 1000) % 60`, `m = (t / 60000) % 60`, `h = (t / 3600000) % 60` with floor division |
| TimeCode.Reconstruct | lib/asr.py:130-135 | `ms + 1000*(s + 60*(m + 60*h)) == t % 216000000`, and `== t` when `0 <= t < 216000000` |
| TimeCode.HourWrap | lib/asr.py:131-133 | adding any multiple of 60 hours leaves the fields unchanged: hours wrap at 60 |
| TimeCode.FieldsDetermined | lib/asr.py:135 | in-range fields are fixed by the value they reconstruct |
| TimeCode.PaddedFacts | lib/asr.py:94 | a number below 10^w, padded to width w, is exactly w digits and reads back as the number |
| TimeCode.DigitsFacts | lib/asr.py:98 | `str(n)` is at least one digit, has no leading zero, and reads back as n |
| TimeCode.TimeCodeRoundTrip | lib/asr.py:94 | every time code has the shape `DD:DD:DD,DDD` (12 characters), and parsing it back gives the fields of the input |
| TimeCode.TimeCodeInjective | lib/asr.py:129-136 | two counts render alike if and only if they agree modulo 60 hours |
| Sorting.Insert | lib/asr.py:96 | one step of the insertion sort: the sentence goes in front of the first one that does not begin strictly earlier |
| Sorting.SortByBegin | lib/asr.py:96 | `sorted(data, key=BeginTime)`: each sentence, from the last to the first, inserted into the sort of those after it |
| Sorting.InsertPermutes | lib/asr.py:96 | one insertion step adds exactly the inserted sentence to the multiset |
| Sorting.InsertSorted | lib/asr.py:96 | inserting into a sequence sorted by begin time keeps it sorted |
| Sorting.InsertStable | lib/asr.py:96 | the inserted sentence goes ahead of every sentence with the same begin time, and their order is kept |
| Sorting.SortPermutes | lib/asr.py:96 | the sort is a permutation of its input |
| Sorting.SortSorted | lib/asr.py:96 | the sort is in non-decreasing begin time |
| Sorting.SortStable | lib/asr.py:96 | for every begin time, the sentences with that time keep their input order (stability) |
| Sorting.SortedDetermined | lib/asr.py:96 | two sorted sequences that agree on the sentences of every begin time are equal |
| Sorting.SortUnique | lib/asr.py:96 | any sorted, stable ordering of the input is the modelled sort, so Python's `sorted` gives the same cues |
| Render.OnChannel | lib/asr.py:93 | `filter` on `ChannelId == channel_id`: the sentences of the channel, in the reply's order |
| Render.OnChannelCount | lib/asr.py:93 | the channel filter keeps each sentence of the channel as often as the input holds it, and none of another channel |
| Render.OnChannelAppend | lib/asr.py:93 | filtering keeps input order: the filter of `a + b` is the filter of `a` followed by the filter of `b` |
| Render.Enumerate | lib/asr.py:96 | `enumerate` pairs the i-th item with the number `from + i` |
| Render.Cues | lib/asr.py:93-96 | the cues of `to_srt`: the channel's sentences, stably sorted by begin time and numbered from 0 |
| Render.CueText | lib/asr.py:97-98 | the f-string of one cue: its number, a newline, the begin and end time codes joined by ` --> `, a newline, the text and two newlines |
| Render.CuesText | lib/asr.py:95-98 | the text of the cues written one after another into the emptied file |
| Render.Srt | lib/asr.py:92-98 | the content of the SRT file for a reply's sentences on one channel |
| Render.CuesSpec | lib/asr.py:93-98 | the SRT has one cue per sentence of the channel, numbered 0, 1, …, n-1. Every cue's sentence is on the channel, and the cues are in non-decreasing begin time |
| Render.CuesPermutation | lib/asr.py:93-98 | the cues show each sentence of the channel exactly as often as the reply holds it, and none of another channel. Sentences with equal begin times keep the reply's order |
| Render.OrderExample | lib/asr.py:92-109 | with "a" and "b" on channel 0 and "c" on channel 1, the SRT has cues 0: "a" and 1: "b" whatever the input order. The TXT keeps input order ("b\na" from b, a) |
| Render.Texts | lib/asr.py:104 | the `Text` of each sentence, in order: one per sentence, the i-th text from the i-th sentence |
| Render.Join | lib/asr.py:103 | `'\n'.join(xs)`: "" for no piece, the piece itself for one, and otherwise the pieces with one newline between neighbours |
| Render.Lines | lib/asr.py:103 | `s.split('\n')`, the partner of `Join`: the pieces between newlines, always at least one |
| Render.JoinEmpty | lib/asr.py:103 | a join is empty exactly when there is no piece or a single empty one |
| Render.LinesJoin | lib/asr.py:103-107 | `'\n'.join` is inverted by `split('\n')` on pieces without newlines. Joining nothing gives `""`, which splits to `[""]` |
| Render.JoinNewlines | lib/asr.py:103 | a join of n newline-free pieces holds n-1 newlines, so there is no trailing newline |
| Render.Txt | lib/asr.py:102-108 | the content of the TXT file: the texts of the channel's sentences in the reply's order, joined by newlines |
| Render.TxtEmpty | lib/asr.py:102-108 | the TXT is empty if and only if the channel has no sentence, or one sentence with empty text; in particular it is `""` for a channel with no sentence, whatever the texts hold |
| Render.TxtLines | lib/asr.py:101-108 | when the channel's texts hold no newline, the TXT's lines are the texts of the channel's sentences in the reply's order, with n-1 newlines |
| Render.Name | lib/asr.py:89 | pathlib's `name`: the text after the last '/', which holds no '/' and is no longer than the path |
| Render.LastDot | lib/asr.py:89 | `rfind('.')`: the index of a '.' after which no '.' follows, or -1 when there is none |
| Render.Suffix | lib/asr.py:88-89 | the suffix is empty, or a dot followed by at least one character with no dot or slash |
| Render.SuffixOf | lib/asr.py:88-89 | `dir/stem.ext` has suffix `.ext` |
| Render.HiddenName | lib/asr.py:88-89 | a name like `.srt` has no suffix |
| Render.Mapper | lib/asr.py:83-87 | the dict comprehension as its entries in the order of the attribute names: `.` and the rest of each name starting with `to_`, with the renderer `getattr` gives |
| Render.Lookup | lib/asr.py:89 | `mapper[key]` of that entry list: the value of the last entry with the key (a later dict entry overwrites an earlier one), or none (the KeyError) |
| Render.Renderer | lib/asr.py:83-89 | the renderer `to` picks for a suffix, looked up in the mapper built from the class's attribute names |
| Render.MapperTable | lib/asr.py:83-87 | the mapper built from the class's attribute names beginning with `to_` has exactly the entries `.backup`, `.srt` and `.txt` |
| Render.RendererTable | lib/asr.py:83-89 | `to` picks the SRT renderer for `.srt`, the TXT one for `.txt` and the backup one for `.backup`, and none for any other suffix |
| Render.RenderKind | lib/asr.py:92-118 | what one renderer writes: the backup record always; the SRT or TXT text when the job has data with a result; otherwise NoData (the TypeError on `None[...]`) or NoResult (the missing `Result`) |
| Render.RenderPath | lib/asr.py:88-89 | what `to` does at one path: the renderer of its suffix, or UnknownSuffix when the mapper has none |
| Render.Apply | lib/asr.py:88-89 | the loop of `to` for any renderer: each path in order writes its content, and the first failure stops the loop and is reported with its index |
| Render.RenderAll | lib/asr.py:82-90 | `to` over a list of paths: `Apply` with `RenderPath` of the job |
| Render.RenderAllFailure | lib/asr.py:88-89 | `to` fails if and only if some path fails. It fails at the first such path, with that path's error |
| Render.RenderAllFiles | lib/asr.py:88-90 | after `to`, every path before the failing one holds what its renderer gives. No other file is created or changed |
| Render.RenderAllStop | lib/asr.py:88-89 | once a path has failed, no later path is rendered |
| Render.UnknownSuffixFails | lib/asr.py:89 | a path with an unknown suffix (say `.pdf`) fails with that suffix (the KeyError `mapper[path.suffix]` raises) and writes nothing |
| Polling.Poll | lib/asr.py:72-80 | a run consumes at most the whole script |
| Polling.PollSpec | lib/asr.py:72-80 | `polling` stops exactly at the first reply that is neither RUNNING nor QUEUEING and stores that reply. It sleeps once per pending reply before it. With no such reply it consumes the whole script |
| Polling.PollIgnoresFaults | lib/asr.py:79-80 | dropping every transport fault from the script changes neither the stored result nor the number of sleeps |
| Polling.QueueingExample | lib/asr.py:72-78 | QUEUEING, QUEUEING, SUCCESS gives two sleeps, three calls, and the third reply as the result |
| Asr.Asr.constructor | lib/asr.py:38-41 | a new job has the given url, no data and no task id |
| Asr.Asr.FromBackup | lib/asr.py:31-36 | a backup file gives a fresh job with the stored url and data and no task id. A missing file, or one that holds no record, gives an error |
| Asr.Asr.Upload | lib/asr.py:51-65 | sends `SubmitTask` with the app key, the url, version "4.0" and both flags true. The task id is set to the reply's `TaskId` if and only if the reply's status is SUCCESS. Otherwise, after a fault or any other status, it is unchanged. The data never changes |
| Asr.Asr.Polling | lib/asr.py:67-80 | requires a task id. Data, sleeps, consumed outcomes and requests sent are exactly what `Poll` gives for the script. The url and task id are unchanged |
| Asr.WriteCues | lib/asr.py:95-98 | the `to_srt` loop leaves the file holding the text of cues 0 … n-1, in order |
| Asr.Asr.ToSrt | lib/asr.py:92-99 | writes the SRT of the channel when the job has data with a result. Otherwise it fails with NoData or NoResult and writes nothing |
| Asr.Asr.ToTxt | lib/asr.py:101-109 | writes the TXT of the channel, with the same error cases as `ToSrt` |
| Asr.Asr.ToBackup | lib/asr.py:111-118 | writes the record of the url and the data, whatever the channel |
| Asr.Asr.Dispatch | lib/asr.py:88-89 | renders one path as `RenderPath` says |
| Asr.Asr.To | lib/asr.py:82-90 | the files and the failure are exactly `RenderAll` of the old files over the paths |
| Asr.Asr.BackupRoundTrip | lib/asr.py:31-41 | `to_backup` and then `from_backup` on one path give a fresh job with the same url and data and no task id |
| Asr.Client.Perform | lib/asr.py:59 | one transport call: the next scripted outcome, or a fault once the script is used up. The request is logged |
| Asr.Clock.Sleep | lib/asr.py:78 | `time.sleep(delay)`: the delay is added to the record of sleeps and nothing else changes |
| Asr.FileSystem.Write | lib/asr.py:95 | `open(path, 'w')` and `write_text`: the file at the path holds exactly the content written, and no other file changes |
| Asr.FileSystem.Append | lib/asr.py:98 | `f.write(text)` on a file open for writing: the text goes at the end of the file, and no other file changes |

## Left out

- `register` (the SDK client and app key held as class-level globals) is replaced by a `Client` object carrying the app key.
- `_request` (the SDK request builder: domain, version, product, HTTP method) is reduced to the action tag `SubmitTask` or `GetTaskResult`.
- `_path` is the identity. Its `mkdir` of parent directories is not modelled.
- pathlib's path normalisation is not modelled either: `Suffix` reads the text after the last '/'.
- JSON encoding and decoding is abstracted. A reply is the record of `StatusText`, `TaskId` and `Result.Sentences`, and a backup file holds the `{url, data}` record itself.
- The byte-for-byte text of a backup is not modelled: `ensure_ascii=False` and the exact `json.dumps` layout.
- A reply that lacks `StatusText` or `TaskId`, or a sentence that lacks a key, would raise a KeyError in the source; the model's types always carry these fields.
- `from_backup` of a text file that happens to be valid JSON of the right shape is treated as not a backup.
- `print` is left out, as are the `data` and `task_id` properties, which only read a field.
- `time.sleep` is a `Clock` that records each delay.
- Asr.Asr.Polling: `delay` is a `nat`, so the case of a negative delay, where `time.sleep` raises ValueError at the first pending reply, is not modelled.
- Asr.Asr.Polling: `while True` never ends while the service keeps answering RUNNING. The model polls a finite script and returns `done == false` when the script runs out before a final reply; the proved properties cover both cases.
- `_time`'s `pattern` parameter is always the default in the source (lib/asr.py:94); only that pattern is modelled.
- A write failing partway (disk full, permissions) is not modelled, so `to_srt` either fails before opening the file or writes every cue.
- The other files of the repository are not part of this model. They are the vendor speech client and its thread handshake, the text-to-speech wrapper, the object-storage helper, and the batch drivers.

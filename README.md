# BeanMachine — a Dafny model of the episode catalogue and the playback display

BeanMachine is a small podcast appliance with two entry points.

- **The episode downloader** (`app/episode_downloader.py`) reads the podcast RSS feed. It numbers the items by document position: the first gets the item count and the last gets 1 (the oldest episode, when the feed lists newest first). For each item it builds a file name `<ordinal>_<channel>_<title>_<YYYYMMDD>.mp3`, appends one catalogue record, and downloads the media unless a file of that name is already in the storage directory. At the end it writes the catalogue to `episodes.json`.
- **The bean machine** (`app/bean_machine.py`) loads that catalogue and picks an episode at random. It names the episode on a 4-row, 20-column character display. It then polls the audio player once a second and shows `elapsed / length` on the last row until the player stops.

The project has five modules:

- `Wrappers` (`wrappers.dfy`): the `Option` type that stands for Python's `None`.
- `Decimal` (`decimal.dfy`): `str(n)`, `'0' * k` and left zero padding, with the number a digit string denotes.
- `Naming` (`naming.dfy`): snake-casing, the padded ordinal, the `%Y%m%d` stamp and `get_filename`.
- `Downloader` (`downloader.dfy`): the catalogue and the downloads of a run as specification functions, and the `EpisodeDownloader` class whose `process` loop is proved against them.
- `Playback` (`bean_machine.dfy`): the `str(timedelta)` clock, what the display is sent, the `BeanDisplay` class over an `array<string>` of four rows, and the `BeanMachine` class with `get_episode` and the `play_episode` polling loop.

The model keeps these behaviours of the code as written:

- A feed request that does not answer 200 leaves `podcast_rss` as it was. `process` then fails on the missing feed; there is no explicit fetch error. `EpisodeDownloader.Process` returns `ok == false` with nothing else changed.
- Ordinals of 1000 and more are written unpadded and untruncated (`'0' * negative` is `''`). The code does not widen the field or raise an error.
- `get_episode` draws from the inclusive range `[0, len(episodes)]`. A draw equal to the length, and every draw on an empty catalogue, is an `IndexError`. `BeanMachine.GetEpisode` returns `None` for it.
- `podcast_episode_list` is only ever appended to. Running `process` twice on one object would list every item twice. A synchronisation run builds a fresh object, so the catalogue it writes holds just that run's records.

## Model

| member | source | states |
|---|---|---|
| `Naming.SnakeCaseAlphabet` | app/episode_downloader.py:23 | snake-cased text uses only `[a-z0-9_]`, never has two `_` in a row, and is no longer than its input |
| `Naming.SnakeCaseIdempotent` | app/episode_downloader.py:23 | snake-casing twice gives the same as snake-casing once |
| `Naming.SnakeCaseKeepsAlnums` | app/episode_downloader.py:23 | the letters and digits of the lower-cased input survive in order, and none is added |
| `Naming.CollapseRunsIsScan` | app/episode_downloader.py:23 | replacing each maximal non-alphanumeric run by `_` agrees with an independent left-to-right scan that emits `_` on entering a run |
| `Naming.SnakeCaseExamples` | app/episode_downloader.py:23 | `"My Show"` becomes `"my_show"` and `"Ep! One"` becomes `"ep_one"` |
| `Decimal.PadLeftDigits` | app/episode_downloader.py:61 | `'0' * (w - len(str(n))) + str(n)` is all digits, has `max(w, len(str(n)))` of them and denotes `n` |
| `Decimal.ShowLength` | app/episode_downloader.py:61 | `str(n)` has at most `w` digits exactly when `n < 10^w` |
| `Naming.EpisodeNumberWidth` | app/episode_downloader.py:61 | the ordinal field denotes `n`; it has exactly 3 digits for `n <= 999` and is exactly `str(n)` for `n >= 1000` |
| `Naming.DateStampReadsBack` | app/episode_downloader.py:45 | `%Y%m%d` is 8 digits, and year, month and day read back from positions 0-3, 4-5 and 6-7 |
| `Naming.FileNameShape` | app/episode_downloader.py:38-48 | the name is ordinal, channel, title and stamp joined by `_` plus `.mp3`; it starts with the ordinal and `_`, ends in `.mp3`, and both the ordinal and the date stamp read back from it |
| `Naming.FileNameDistinct` | app/episode_downloader.py:38-48 | names built with different ordinals differ, whatever the titles and dates |
| `Naming.FileNameExample` | app/episode_downloader.py:38-48 | `"My Show"`, `"Ep! One"`, ordinal 1 and 2024-03-05 give `001_my_show_ep_one_20240305.mp3` |
| `Downloader.OrdinalsOneToCount` | app/episode_downloader.py:78-80 | the numbers `N - i` for `i` in `0..N-1` start at `N`, end at 1, and hold each of `1..N` exactly once |
| `Downloader.CatalogueFollowsFeed` | app/episode_downloader.py:57-80 | a run yields one record per item, in document order, with that item's title, date and duration; the record at position `i` has ordinal `N - i` in its file name |
| `Downloader.CatalogueOrdinals` | app/episode_downloader.py:78-80 | the ordinals in the catalogue's file names are exactly `1..N` once each; the first record has `N` and the last has 1 |
| `Downloader.CatalogueNamesDistinct` | app/episode_downloader.py:57-69 | no two records of one run share a file name |
| `Downloader.DownloadedIffMissing` | app/episode_downloader.py:70-72 | the set of files downloaded is exactly the set of requested names that were not already in storage |
| `Downloader.DownloadsOnce` | app/episode_downloader.py:70-72 | no download names a file that was already in storage, no file is downloaded twice, and every download is one of the requests |
| `Downloader.DistinctDownloadsAreMissing` | app/episode_downloader.py:70-72 | when request names are distinct, the downloads are exactly the requests whose files were missing, in order |
| `Downloader.RunDownloadsMissing` | app/episode_downloader.py:74-80 | a whole run downloads exactly the missing catalogue files, in document order, once each, and never a file that was already stored |
| `Downloader.EpisodeDownloader.constructor` | app/episode_downloader.py:16-19 | no feed, an empty title and an empty episode list |
| `Downloader.EpisodeDownloader.HasEpisodeBeenDownloaded` | app/episode_downloader.py:34-36 | a file counts as downloaded exactly when a file of that name is in the storage directory; `ProcessPodcastEpisode` downloads only when this is false |
| `Downloader.EpisodeDownloader.DownloadFile` | app/episode_downloader.py:26-32 | the file is now in storage, and the download is logged once |
| `Downloader.EpisodeDownloader.SetPodcastRssData` | app/episode_downloader.py:50-55 | a 200 answer stores the parsed feed; any other status leaves `podcast_rss` as it was |
| `Downloader.EpisodeDownloader.ProcessPodcastEpisode` | app/episode_downloader.py:57-72 | appends exactly one record, downloaded or not; the file ends up in storage, and it is downloaded exactly when it was missing |
| `Downloader.EpisodeDownloader.ProcessItem` | app/episode_downloader.py:79-80 | one loop turn extends the list, the storage and the download log from the first `i` items to the first `i + 1` |
| `Downloader.EpisodeDownloader.ProcessEpisodes` | app/episode_downloader.py:78-80 | after the loop, the list has gained the catalogue of the channel, storage has gained its file names, and the log has gained exactly the downloads of the missing ones |
| `Downloader.EpisodeDownloader.Process` | app/episode_downloader.py:74-81 | without a feed the run fails and changes nothing; otherwise it takes the channel title, appends the catalogue, downloads the missing files and writes the list to the catalogue file |
| `Playback.ClockReadsBack` | app/bean_machine.py:115-120 | under one day, `str(timedelta(seconds=t))` is `H:MM:SS` with one or two hour digits, and its fields read back as `t` |
| `Playback.ClockLength` | app/bean_machine.py:115-120 | the clock has 7 or 8 characters under one day, and at least 14 from one day on |
| `Playback.TickLineFits` | app/bean_machine.py:115-120 | the `elapsed / length` row fits the 20 columns exactly when both times are under one day |
| `Playback.FrameAt` | app/bean_machine.py:97-100 | `set_display` writes line `i` on row `i`, once per line, in order |
| `Playback.TickFramesAt` | app/bean_machine.py:151-158 | while playing, the `j`-th group of four writes shows tick `j`'s time on row 3 over the unchanged rows 0 to 2 |
| `Playback.FirstIdle` | app/bean_machine.py:151-158 | the position of the player's first "not playing" answer; every earlier answer is "playing" |
| `Playback.BeanDisplay.constructor` | app/bean_machine.py:70-88 | four rows: the 20-character banner `--THE BEAN MACHINE--` and three empty rows; not playing, zero seconds; the LCD is cleared and then sent all rows |
| `Playback.BeanDisplay.Setup` | app/bean_machine.py:85-88 | only row 0 changes, to the banner; the LCD is cleared and then sent all rows |
| `Playback.BeanDisplay.SetDisplay` | app/bean_machine.py:97-100 | the LCD is sent every row in order, and nothing else changes |
| `Playback.BeanDisplay.SetPlayingEpisode` | app/bean_machine.py:90-95 | stores the episode; `None` leaves the rows and the LCD alone, and an episode changes only row 1, to `EPISODE: <name>`, and redraws |
| `Playback.BeanDisplay.SetIsPlaying` | app/bean_machine.py:102-113 | `is_playing` becomes `old && arg`, so it only moves from true to false; the episode is cleared on that move only; rows and LCD are untouched |
| `Playback.BeanDisplay.Tick` | app/bean_machine.py:115-120 | `seconds_played` becomes `t`; with an episode, only row 3 changes, to `clock(t) / clock(duration)`, and is redrawn; without one, the call fails after recording the seconds |
| `Playback.BeanMachine.constructor` | app/bean_machine.py:125-134 | the loaded catalogue and a freshly set-up display: banner and three empty rows, not playing, zero seconds, and the LCD cleared then sent all four rows |
| `Playback.BeanMachine.GetEpisode` | app/bean_machine.py:136-138 | for a draw in the inclusive range `[0, len]`, returns an episode exactly when the draw is below `len`, and that episode is the one at the draw |
| `Playback.BeanMachine.PlayEpisode` | app/bean_machine.py:140-158 | a draw past the end fails and shows nothing; otherwise row 1 names the episode, `tick` is called with `0, 1, ..., k` where `k` is the first "not playing" answer, and row 3 ends on tick `k`'s time |
| `Playback.BeanMachine.Poll` | app/bean_machine.py:151-158 | the polling loop calls `tick` with `0..k` in order, stops after the first "not playing" answer, and the LCD receives one frame per tick |
| `Playback.BeanMachine.PlayTick` | app/bean_machine.py:153-154 | one loop pass: `tick(n)` puts the `n`-th time on row 3, and its frame follows the earlier ticks' frames |

Because `BeanDisplay.constructor` starts `is_playing` false and `SetIsPlaying` ensures the new value is `old && arg`, `is_playing` can never become true. `PlayEpisode` also leaves it unchanged.

## Left out

- HTTP: the feed request and the chunked media download are not modelled. The feed answer is a `Response` value (status and parsed channel), and a download adds its name to the storage set and logs it.
- XML parsing, namespaced `find` and items with missing fields are not modelled. Items arrive already parsed as `(title, date, url, duration)`, so the run-aborting crash on a malformed item does not appear.
- `datetime.strptime` with its `+%f` format is not modelled. The publish date is a validated `(year, month, day)`; the time of day plays no part in the file name.
- The `int()` parse of the duration is not modelled: the duration is a `nat`.
- The file system and JSON (`os.path.exists`, `open`, `json.dump`, `json.load`, `default=str`) are modelled as values: storage is a set of names, and the catalogue file is the written list of records. `Episode.load_from_json` is replaced by passing the loaded catalogue to the `BeanMachine` constructor.
- The `pygame` mixer (`EpisodePlayer`) is not modelled. The player is a sequence of answers to "still playing?".
- `time.sleep` and `random.randint` are not modelled. The sleep has no effect on state, and the random draw is a parameter.
- The LCD driver and its stand-in are not modelled. What the display receives is recorded as a log of clears and row writes, and the cursor position is folded into each write's row.
- `config.py` (host and environment lookup) and the module-level `EpisodeDownloader().process()` call are not part of this model.
- `Naming.SnakeCaseAlphabet`: `str.lower()` is modelled on ASCII letters only, so non-ASCII case folding is not captured.
- `Naming.DateStampReadsBack`: `%Y` is modelled as a four-digit zero-padded year, which covers every year `datetime` accepts from this feed format.
- `Playback.BeanMachine.PlayEpisode`: requires that the player eventually answers "not playing". A player that plays forever, and so a loop that never ends, is not modelled.
- `Playback.BeanMachine.Poll`: requires the same eventual "not playing" answer as `PlayEpisode`.

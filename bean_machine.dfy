/**
 * The playback side: the four-line character display with its playing
 * state, the random choice of an episode from the catalogue, and the loop
 * that polls the audio player once a second and shows the elapsed time.
 *
 * The LCD is an abstract device: every `clear` and every line written is
 * recorded, in order, in the display's `lcdLog`. The audio player is a
 * sequence of answers to "is it still playing?", the random draw is a
 * parameter and the catalogue is passed in already loaded.
 */
module Playback {

  import opened Wrappers
  import opened Decimal

  /** One catalogue entry as the player loads it. */
  datatype Episode = Episode(episodeName: string, fileName: string, publishDate: string, duration: nat)

  /**
   * The `playing_episode` slot. The constructor stores the typing object
   * `Optional[None]` there, which is neither `None` nor an episode.
   */
  datatype EpisodeSlot = Placeholder | NoEpisode | Holds(episode: Episode)

  /** What the display is asked to do. */
  datatype LcdOp = Clear | Write(row: nat, text: string)

  /** The banner of row 0, as wide as the 20-column display. */
  const Header := "--THE BEAN MACHINE--"

  const SecondsPerDay := 86400

  // ---------------------------------------------------------------------
  // Elapsed time as `str(datetime.timedelta(seconds=t))` renders it

  /**
   * The `H:MM:SS` part of `str(timedelta)` for the seconds within the day:
   * `mm, ss = divmod(seconds, 60)`, then `hh, mm = divmod(mm, 60)`.
   */
  function Hms(seconds: nat): string {
    var minutes, ss := seconds / 60, seconds % 60;
    var hh, mm := minutes / 60, minutes % 60;
    Show(hh) + ":" + PadLeft(mm, 2) + ":" + PadLeft(ss, 2)
  }

  /** `str(timedelta(seconds=t))`: `H:MM:SS`, preceded by `D day, ` or `D days, ` from one day on. */
  function Clock(t: nat): string {
    if t < SecondsPerDay then Hms(t)
    else Show(t / SecondsPerDay) + (if t < 2 * SecondsPerDay then " day, " else " days, ") + Hms(t % SecondsPerDay)
  }

  /** `%02d` of a number under 60: two digits denoting it. */
  lemma TwoDigits(n: nat)
    requires n < 60
    ensures |PadLeft(n, 2)| == 2 && AllDigits(PadLeft(n, 2)) && Value(PadLeft(n, 2)) == n
  {
    ShowLength(n, 2);
    PadLeftDigits(n, 2);
  }

  /** The hour field of a time within the day: one or two digits denoting it. */
  lemma HourDigits(h: nat)
    requires h < 24
    ensures 1 <= |Show(h)| <= 2 && AllDigits(Show(h)) && Value(Show(h)) == h
  {
    ShowLength(h, 2);
    ShowRoundTrip(h);
  }

  /**
   * Within the day the clock is `H:MM:SS` with one or two hour digits, and
   * its three fields read back as the hours, minutes and seconds of `t`.
   */
  lemma ClockReadsBack(t: nat)
    requires t < SecondsPerDay
    ensures var s := Clock(t);
      && 7 <= |s| <= 8 && s[|s| - 6] == ':' && s[|s| - 3] == ':'
      && AllDigits(s[..|s| - 6]) && AllDigits(s[|s| - 5..|s| - 3]) && AllDigits(s[|s| - 2..])
      && Value(s[..|s| - 6]) * 3600 + Value(s[|s| - 5..|s| - 3]) * 60 + Value(s[|s| - 2..]) == t
  {
    var minutes := t / 60;
    assert t == minutes * 60 + t % 60;
    assert minutes == minutes / 60 * 60 + minutes % 60;
    HourDigits(minutes / 60);
    TwoDigits(minutes % 60);
    TwoDigits(t % 60);
    var h, m, z := Show(minutes / 60), PadLeft(minutes % 60, 2), PadLeft(t % 60, 2);
    assert Value(h) * 3600 + Value(m) * 60 + Value(z) == t;
    assert Clock(t) == h + ":" + m + ":" + z;
    FieldsReadBack(h, m, z);
  }

  /** Where the three fields of `H:MM:SS` sit, and what they read back as. */
  lemma FieldsReadBack(h: string, m: string, z: string)
    requires 1 <= |h| <= 2 && |m| == 2 && |z| == 2 && AllDigits(h) && AllDigits(m) && AllDigits(z)
    ensures var s := h + ":" + m + ":" + z;
      && 7 <= |s| <= 8 && s[|s| - 6] == ':' && s[|s| - 3] == ':'
      && AllDigits(s[..|s| - 6]) && AllDigits(s[|s| - 5..|s| - 3]) && AllDigits(s[|s| - 2..])
      && Value(s[..|s| - 6]) * 3600 + Value(s[|s| - 5..|s| - 3]) * 60 + Value(s[|s| - 2..])
         == Value(h) * 3600 + Value(m) * 60 + Value(z)
  {
    var s := h + ":" + m + ":" + z;
    assert s[..|s| - 6] == h;
    assert s[|s| - 5..|s| - 3] == m;
    assert s[|s| - 2..] == z;
  }

  /** The `H:MM:SS` part is seven or eight characters long. */
  lemma HmsLength(seconds: nat)
    requires seconds < SecondsPerDay
    ensures 7 <= |Hms(seconds)| <= 8
  {
    HourDigits(seconds / 60 / 60);
    TwoDigits(seconds / 60 % 60);
    TwoDigits(seconds % 60);
  }

  /** From one day on the clock carries the day count and is at least `1 day, 0:00:00` long. */
  lemma ClockLength(t: nat)
    ensures t < SecondsPerDay ==> 7 <= |Clock(t)| <= 8
    ensures t >= SecondsPerDay ==> |Clock(t)| >= 14
  {
    HmsLength(t % SecondsPerDay);
  }

  /** Row 3 while playing: elapsed time, then the episode's length. */
  function TickLine(t: nat, duration: nat): string {
    Clock(t) + " / " + Clock(duration)
  }

  /** The tick line fits the 20 columns exactly when both times are under one day. */
  lemma TickLineFits(t: nat, duration: nat)
    ensures |TickLine(t, duration)| <= 20 <==> t < SecondsPerDay && duration < SecondsPerDay
  {
    ClockLength(t);
    ClockLength(duration);
  }

  /** Row 1 once an episode is chosen. */
  function EpisodeLine(e: Episode): string {
    "EPISODE: " + e.episodeName
  }

  // ---------------------------------------------------------------------
  // What the display is sent

  /** `set_display`: every line, in order, written at the start of its own row. */
  function Frame(lines: seq<string>): seq<LcdOp>
    decreases |lines|
  {
    if lines == [] then [] else Frame(lines[..|lines| - 1]) + [Write(|lines| - 1, lines[|lines| - 1])]
  }

  /** A frame writes line `i` on row `i`, one write per line. */
  lemma {:induction false} FrameAt(lines: seq<string>)
    ensures |Frame(lines)| == |lines|
    ensures forall i | 0 <= i < |lines| :: Frame(lines)[i] == Write(i, lines[i])
    decreases |lines|
  {
    if lines != [] {
      var front := lines[..|lines| - 1];
      FrameAt(front);
      forall i | 0 <= i < |front| ensures Frame(lines)[i] == Write(i, lines[i]) {
        assert front[i] == lines[i];
      }
    }
  }

  /** What the display is sent while row 3 reads each of `texts` in turn over the other rows of `lines`. */
  function Frames(lines: seq<string>, texts: seq<string>): seq<LcdOp>
    requires |lines| == 4
    decreases |texts|
  {
    if texts == [] then [] else Frames(lines, texts[..|texts| - 1]) + Frame(lines[3 := texts[|texts| - 1]])
  }

  /** Showing one more row-3 text sends one more frame. */
  lemma FramesSnoc(lines: seq<string>, texts: seq<string>, text: string)
    requires |lines| == 4
    ensures Frames(lines, texts + [text]) == Frames(lines, texts) + Frame(lines[3 := text])
  {
    assert (texts + [text])[..|texts|] == texts;
  }

  /** Appending to a log that extends `log0` by `before` extends it by `before + frame`. */
  lemma LogAppend<T>(log0: seq<T>, before: seq<T>, logBefore: seq<T>, frame: seq<T>, log: seq<T>, after: seq<T>)
    requires logBefore == log0 + before && log == logBefore + frame && after == before + frame
    ensures log == log0 + after
  {
  }

  /** `texts[j]` is what `tick(j)` puts on row 3. */
  predicate Ticked(texts: seq<string>, d: nat) {
    forall j {:trigger TickLine(j, d)} | 0 <= j < |texts| :: texts[j] == TickLine(j, d)
  }

  /** The text of the next tick extends what the ticks so far have shown. */
  lemma TickedSnoc(texts: seq<string>, d: nat, text: string)
    requires Ticked(texts, d) && text == TickLine(|texts|, d)
    ensures Ticked(texts + [text], d)
  {
    forall j | 0 <= j < |texts| + 1
      ensures (texts + [text])[j] == TickLine(j, d)
    {
      if j < |texts| {
        assert (texts + [text])[j] == texts[j];
      }
    }
  }

  /**
   * The `j`-th group of four writes is the frame whose row 3 reads
   * `texts[j]`, the other rows those of `lines`.
   */
  lemma {:induction false} FramesAt(lines: seq<string>, texts: seq<string>)
    requires |lines| == 4
    ensures |Frames(lines, texts)| == 4 * |texts|
    ensures forall j | 0 <= j < |texts| :: Frames(lines, texts)[4 * j..4 * j + 4] == Frame(lines[3 := texts[j]])
    decreases |texts|
  {
    if texts != [] {
      var n := |texts| - 1;
      var front := texts[..n];
      FramesAt(lines, front);
      FrameAt(lines[3 := texts[n]]);
      var all, before := Frames(lines, texts), Frames(lines, front);
      assert all == before + Frame(lines[3 := texts[n]]);
      forall j | 0 <= j < |texts| ensures all[4 * j..4 * j + 4] == Frame(lines[3 := texts[j]]) {
        if j < n {
          assert all[4 * j..4 * j + 4] == before[4 * j..4 * j + 4];
          assert front[j] == texts[j];
        } else {
          assert all[4 * j..4 * j + 4] == all[|before|..];
        }
      }
    }
  }

  /**
   * While playing, the `j`-th group of four writes shows the time after
   * `j` ticks on row 3 over the other rows of `lines`.
   */
  lemma TickFramesAt(lines: seq<string>, texts: seq<string>, d: nat)
    requires |lines| == 4 && Ticked(texts, d)
    ensures |Frames(lines, texts)| == 4 * |texts|
    ensures forall j | 0 <= j < |texts| :: Frames(lines, texts)[4 * j..4 * j + 4] == Frame(lines[3 := TickLine(j, d)])
  {
    FramesAt(lines, texts);
    forall j | 0 <= j < |texts| ensures Frames(lines, texts)[4 * j..4 * j + 4] == Frame(lines[3 := TickLine(j, d)]) {
      assert texts[j] == TickLine(j, d);
    }
  }

  /** The arguments of the first `n` calls of `tick`: `0, 1, ..., n - 1`. */
  function Upto(n: nat): seq<nat> {
    if n == 0 then [] else Upto(n - 1) + [n - 1]
  }

  lemma {:induction false} UptoAt(n: nat)
    ensures |Upto(n)| == n && forall i | 0 <= i < n :: Upto(n)[i] == i
  {
    if n > 0 {
      UptoAt(n - 1);
    }
  }

  /** The position of the player's first "not playing" answer. */
  function FirstIdle(busy: seq<bool>): (k: nat)
    requires exists i | 0 <= i < |busy| :: !busy[i]
    ensures k < |busy| && !busy[k]
    ensures forall j | 0 <= j < k :: busy[j]
  {
    if !busy[0] then 0
    else
      assert exists i | 0 <= i < |busy[1..]| :: !busy[1..][i] by {
        var i :| 0 <= i < |busy| && !busy[i];
        assert busy[1..][i - 1] == busy[i];
      }
      1 + FirstIdle(busy[1..])
  }

  /** Up to the first "not playing" answer, an answer says whether it comes before it. */
  lemma IdleAt(busy: seq<bool>, n: nat)
    requires exists i | 0 <= i < |busy| :: !busy[i]
    requires n <= FirstIdle(busy)
    ensures n < |busy| && (busy[n] <==> n < FirstIdle(busy))
  {
  }

  /** Two displays that agree on rows 0 to 2 agree once row 3 is overwritten. */
  lemma SameRows(lines: seq<string>, named: seq<string>, text: string)
    requires |lines| == 4 && |named| == 4
    requires lines[0] == named[0] && lines[1] == named[1] && lines[2] == named[2]
    ensures lines[3 := text] == named[3 := text]
  {
  }

  // ---------------------------------------------------------------------
  // The display

  class BeanDisplay {
    var isPlaying: bool
    var playingEpisode: EpisodeSlot
    /** The four rows of the display. */
    const lines: array<string>
    var secondsPlayed: nat
    /** Everything sent to the LCD, in order. */
    var lcdLog: seq<LcdOp>

    ghost predicate Valid()
      reads this
    {
      lines.Length == 4
    }

    /** `__init__`: four empty rows, then `setup`. */
    constructor ()
      ensures Valid() && fresh(lines)
      ensures lines[..] == [Header, "", "", ""] && |lines[0]| == 20
      ensures !isPlaying && playingEpisode == Placeholder && secondsPlayed == 0
      ensures lcdLog == [Clear] + Frame(lines[..])
    {
      isPlaying := false;
      playingEpisode := Placeholder;
      lines := new string[4](_ => "");
      secondsPlayed := 0;
      lcdLog := [];
      new;
      Setup();
    }

    /** `setup`: clear the LCD, put the banner on row 0 and show all rows. */
    method Setup()
      requires Valid()
      modifies this`lcdLog, lines
      ensures lines[..] == old(lines[..])[0 := Header]
      ensures lcdLog == old(lcdLog) + [Clear] + Frame(lines[..])
    {
      lcdLog := lcdLog + [Clear];
      lines[0] := Header;
      SetDisplay();
    }

    /** `set_display`: write every row, top to bottom. */
    method SetDisplay()
      requires Valid()
      modifies this`lcdLog
      ensures lcdLog == old(lcdLog) + Frame(lines[..])
    {
      for i := 0 to lines.Length
        invariant lcdLog == old(lcdLog) + Frame(lines[..i])
      {
        assert lines[..i + 1][..i] == lines[..i];
        lcdLog := lcdLog + [Write(i, lines[i])];
      }
      assert lines[..lines.Length] == lines[..];
    }

    /**
     * `set_playing_episode`: remember the episode; for an actual episode,
     * also name it on row 1 and show the rows, while `None` touches
     * neither the rows nor the LCD.
     */
    method SetPlayingEpisode(episode: Option<Episode>)
      requires Valid()
      modifies this`playingEpisode, this`lcdLog, lines
      ensures playingEpisode == if episode.None? then NoEpisode else Holds(episode.value)
      ensures episode.None? ==> lines[..] == old(lines[..]) && lcdLog == old(lcdLog)
      ensures episode.Some? ==>
        (lines[..] == old(lines[..])[1 := EpisodeLine(episode.value)] && lcdLog == old(lcdLog) + Frame(lines[..]))
    {
      playingEpisode := if episode.None? then NoEpisode else Holds(episode.value);
      if episode.None? {
        return;
      }
      lines[1] := EpisodeLine(episode.value);
      SetDisplay();
    }

    /**
     * `set_is_playing`: the flag only ever goes from true to false, and on
     * that move the episode is cleared; every other call changes nothing.
     */
    method SetIsPlaying(playing: bool)
      requires Valid()
      modifies this`isPlaying, this`playingEpisode, this`lcdLog, lines
      ensures isPlaying == (old(isPlaying) && playing)
      ensures playingEpisode == if old(isPlaying) && !playing then NoEpisode else old(playingEpisode)
      ensures lines[..] == old(lines[..]) && lcdLog == old(lcdLog)
    {
      if isPlaying && playing {
        return;
      } else if !isPlaying && playing {
        return;
      } else if isPlaying && !playing {
        isPlaying := false;
        SetPlayingEpisode(None);
      }
    }

    /**
     * `tick`: record the elapsed seconds, then put `elapsed / length` on
     * row 3 and show the rows. Without an episode to take the length
     * from, the call fails (`ok` is false) after the seconds are recorded
     * and before anything is shown.
     */
    method Tick(totalTicks: nat) returns (ok: bool)
      requires Valid()
      modifies this`secondsPlayed, this`lcdLog, lines
      ensures secondsPlayed == totalTicks
      ensures ok <==> playingEpisode.Holds?
      ensures ok ==> (lines[..] == old(lines[..])[3 := TickLine(totalTicks, playingEpisode.episode.duration)]
        && lcdLog == old(lcdLog) + Frame(lines[..]))
      ensures !ok ==> lines[..] == old(lines[..]) && lcdLog == old(lcdLog)
    {
      secondsPlayed := totalTicks;
      if !playingEpisode.Holds? {
        return false;
      }
      lines[3] := TickLine(totalTicks, playingEpisode.episode.duration);
      SetDisplay();
      ok := true;
    }
  }

  // ---------------------------------------------------------------------
  // The machine

  class BeanMachine {
    var episodes: seq<Episode>
    const beanDisplay: BeanDisplay

    ghost predicate Valid()
      reads this, beanDisplay
    {
      beanDisplay.Valid()
    }

    /** `__init__`: a fresh display, then `setup` loads the catalogue. */
    constructor (catalogue: seq<Episode>)
      ensures Valid() && fresh(beanDisplay) && fresh(beanDisplay.lines)
      ensures episodes == catalogue
      ensures beanDisplay.lines[..] == [Header, "", "", ""] && beanDisplay.playingEpisode == Placeholder
      ensures !beanDisplay.isPlaying && beanDisplay.secondsPlayed == 0
      ensures beanDisplay.lcdLog == [Clear] + Frame(beanDisplay.lines[..])
    {
      beanDisplay := new BeanDisplay();
      episodes := catalogue;
    }

    /**
     * `get_episode` for the draw `randint(0, len(episodes))` returned,
     * which includes `len(episodes)` itself: `None` stands for the
     * `IndexError` that draw raises.
     */
    function GetEpisode(draw: int): (e: Option<Episode>)
      reads this
      requires 0 <= draw <= |episodes|
      ensures e.Some? <==> draw < |episodes|
      ensures e.Some? ==> e.value == episodes[draw]
    {
      if draw < |episodes| then Some(episodes[draw]) else None
    }

    /**
     * `play_episode` given the random draw and the player's answers to
     * "still playing?", one per second. When the draw finds an episode, it
     * is named on row 1 and `tick` is called with `0, 1, ..., k`, where
     * `k` is the first answer "no"; the last tick's time stays on row 3.
     * A draw past the end fails before anything is shown.
     */
    method PlayEpisode(draw: int, busy: seq<bool>) returns (ok: bool, ticks: seq<nat>, ghost texts: seq<string>)
      requires Valid() && 0 <= draw <= |episodes|
      requires exists i | 0 <= i < |busy| :: !busy[i]
      modifies beanDisplay, beanDisplay.lines
      ensures ok <==> draw < |episodes|
      ensures !ok ==> (ticks == [] && beanDisplay.lines[..] == old(beanDisplay.lines[..])
        && beanDisplay.lcdLog == old(beanDisplay.lcdLog) && beanDisplay.playingEpisode == old(beanDisplay.playingEpisode)
        && beanDisplay.secondsPlayed == old(beanDisplay.secondsPlayed))
      ensures ok ==>
        var e, k := episodes[draw], FirstIdle(busy);
        var named := old(beanDisplay.lines[..])[1 := EpisodeLine(e)];
        && ticks == Upto(k + 1)
        && beanDisplay.playingEpisode == Holds(e)
        && beanDisplay.secondsPlayed == k
        && beanDisplay.lines[..] == named[3 := TickLine(k, e.duration)]
        && |texts| == k + 1 && Ticked(texts, e.duration)
        && beanDisplay.lcdLog == old(beanDisplay.lcdLog) + Frame(named) + Frames(named, texts)
      ensures beanDisplay.isPlaying == old(beanDisplay.isPlaying)
    {
      var episodeToPlay := GetEpisode(draw);
      if episodeToPlay.None? {
        return false, [], [];
      }
      var e := episodeToPlay.value;
      beanDisplay.SetPlayingEpisode(episodeToPlay);
      ghost var named := beanDisplay.lines[..];
      ghost var logNamed := beanDisplay.lcdLog;
      ticks, texts := Poll(e, busy, named, logNamed);
      ok := true;
    }

    /**
     * The polling loop of `play_episode`, with the episode already named
     * on row 1: `tick(0)`, `tick(1)`, ... until the player's first "no",
     * whose tick is the last.
     */
    method Poll(e: Episode, busy: seq<bool>, ghost named: seq<string>, ghost logNamed: seq<LcdOp>)
      returns (ticks: seq<nat>, ghost texts: seq<string>)
      requires Valid() && |named| == 4 && beanDisplay.playingEpisode == Holds(e)
      requires exists i | 0 <= i < |busy| :: !busy[i]
      requires beanDisplay.lines[..] == named && beanDisplay.lcdLog == logNamed
      modifies beanDisplay, beanDisplay.lines
      ensures var k := FirstIdle(busy);
        && ticks == Upto(k + 1)
        && beanDisplay.playingEpisode == Holds(e) && beanDisplay.isPlaying == old(beanDisplay.isPlaying)
        && beanDisplay.secondsPlayed == k
        && |texts| == k + 1 && Ticked(texts, e.duration)
        && beanDisplay.lines[..] == named[3 := texts[k]]
        && beanDisplay.lcdLog == logNamed + Frames(named, texts)
    {
      ghost var k := FirstIdle(busy);
      var loopCount := 0;
      ticks := [];
      texts := [];
      while true
        invariant 0 <= loopCount <= k
        invariant ticks == Upto(loopCount)
        invariant beanDisplay.playingEpisode == Holds(e) && beanDisplay.isPlaying == old(beanDisplay.isPlaying)
        invariant beanDisplay.lines[0] == named[0] && beanDisplay.lines[1] == named[1] && beanDisplay.lines[2] == named[2]
        invariant |texts| == loopCount && Ticked(texts, e.duration)
        invariant beanDisplay.lcdLog == logNamed + Frames(named, texts)
        decreases k - loopCount
      {
        IdleAt(busy, loopCount);
        var isPlaying := busy[loopCount];
        texts := PlayTick(e, loopCount, named, logNamed, texts);
        ticks := ticks + [loopCount];
        if !isPlaying {
          assert loopCount == k;
          assert ticks == Upto(k + 1);
          break;
        }
        loopCount := loopCount + 1;
      }
    }

    /**
     * One pass of the `play_episode` loop body: `tick(n)` puts the `n`-th
     * time on row 3, and its frame joins the frames of the earlier ticks.
     */
    method PlayTick(e: Episode, n: nat, ghost named: seq<string>, ghost logNamed: seq<LcdOp>, ghost texts: seq<string>)
      returns (ghost texts': seq<string>)
      requires Valid() && |named| == 4 && beanDisplay.playingEpisode == Holds(e)
      requires beanDisplay.lines[0] == named[0] && beanDisplay.lines[1] == named[1] && beanDisplay.lines[2] == named[2]
      requires |texts| == n && Ticked(texts, e.duration)
      requires beanDisplay.lcdLog == logNamed + Frames(named, texts)
      modifies beanDisplay, beanDisplay.lines
      ensures beanDisplay.playingEpisode == Holds(e) && beanDisplay.isPlaying == old(beanDisplay.isPlaying)
      ensures beanDisplay.secondsPlayed == n
      ensures |texts'| == n + 1 && Ticked(texts', e.duration)
      ensures beanDisplay.lines[..] == named[3 := texts'[n]]
      ensures beanDisplay.lcdLog == logNamed + Frames(named, texts')
    {
      ghost var text := TickLine(n, e.duration);
      SameRows(beanDisplay.lines[..], named, text);
      ghost var logBefore := beanDisplay.lcdLog;
      var tickOk := beanDisplay.Tick(n);
      texts' := texts + [text];
      TickedSnoc(texts, e.duration, text);
      FramesSnoc(named, texts, text);
      LogAppend(logNamed, Frames(named, texts), logBefore, Frame(named[3 := text]), beanDisplay.lcdLog, Frames(named, texts'));
    }
  }
}

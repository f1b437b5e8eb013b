/**
 * The episode downloader: one synchronisation run turns the items of the
 * podcast feed into catalogue records numbered by document position (the
 * first item gets the item count, the last gets 1), downloads the media of every record
 * whose file is not yet in the storage directory, and writes the records
 * to the catalogue file.
 *
 * The HTTP response, the parsed XML and the storage directory are values:
 * the feed is an already parsed channel, the directory is the set of file
 * names in it, and a download adds its file name to that set.
 */
module Downloader {

  import opened Wrappers
  import opened Decimal
  import opened Naming

  /** A feed item: its `title`, parsed `pubDate`, `enclosure` url and `itunes:duration`. */
  datatype Item = Item(title: string, pubDate: CalendarDate, url: string, duration: nat)

  /** The `channel` element of the feed: its `title` and its `item`s in document order. */
  datatype Channel = Channel(title: string, items: seq<Item>)

  /** The answer to the feed request: the status code and the parsed document. */
  datatype Response = Response(statusCode: int, document: Channel)

  /** One entry of `podcast_episode_list` (and of the catalogue file). */
  datatype EpisodeRecord = EpisodeRecord(episodeName: string, publishDate: CalendarDate, fileName: string, duration: nat)

  /** One call of `download_file`. */
  datatype Download = Download(fileName: string, url: string)

  /** The record `process_podcast_episode` appends for `item` numbered `n`. */
  function RecordFor(channelTitle: string, item: Item, n: nat): EpisodeRecord {
    EpisodeRecord(item.title, item.pubDate, FileName(channelTitle, item.title, EpisodeNumber(n), item.pubDate), item.duration)
  }

  /**
   * What `make` gives `items` when the first of them is numbered `count`,
   * the next `count - 1`, and so on, in order.
   */
  function Numbering<R>(make: (Item, nat) -> R, items: seq<Item>, count: int): seq<R>
    requires |items| <= count
    decreases |items|
  {
    if items == [] then []
    else
      var k := |items| - 1;
      Numbering(make, items[..k], count) + [make(items[k], count - k)]
  }

  /** Position `i` of a numbering belongs to item `i`, numbered `count - i`. */
  lemma {:induction false} NumberingAt<R>(make: (Item, nat) -> R, items: seq<Item>, count: int)
    requires |items| <= count
    ensures |Numbering(make, items, count)| == |items|
    ensures forall i | 0 <= i < |items| :: Numbering(make, items, count)[i] == make(items[i], count - i)
    decreases |items|
  {
    if items != [] {
      var k := |items| - 1;
      var front := items[..k];
      NumberingAt(make, front, count);
      var r, r0 := Numbering(make, items, count), Numbering(make, front, count);
      assert r == r0 + [make(items[k], count - k)];
      forall i | 0 <= i < k ensures r[i] == make(items[i], count - i) {
        assert r[i] == r0[i] && front[i] == items[i];
      }
    }
  }

  /** Numbering one more item appends what `make` gives that item. */
  lemma NumberingStep<R>(make: (Item, nat) -> R, items: seq<Item>, count: int, i: nat)
    requires i < |items| <= count
    ensures Numbering(make, items[..i + 1], count) == Numbering(make, items[..i], count) + [make(items[i], count - i)]
  {
    assert items[..i + 1][..i] == items[..i];
  }

  function RecordsOf(channelTitle: string): (Item, nat) -> EpisodeRecord {
    (item: Item, n: nat) => RecordFor(channelTitle, item, n)
  }

  function RequestsOf(channelTitle: string): (Item, nat) -> Download {
    (item: Item, n: nat) => Download(RecordFor(channelTitle, item, n).fileName, item.url)
  }

  /** The records for `items` when the first of them is numbered `count`. */
  function Numbered(channelTitle: string, items: seq<Item>, count: int): seq<EpisodeRecord>
    requires |items| <= count
  {
    Numbering(RecordsOf(channelTitle), items, count)
  }

  /** The download each of those records asks for, if its file is missing. */
  function Requests(channelTitle: string, items: seq<Item>, count: int): seq<Download>
    requires |items| <= count
  {
    Numbering(RequestsOf(channelTitle), items, count)
  }

  /** The records and the requests of one numbering, position by position. */
  lemma NumberedAt(channelTitle: string, items: seq<Item>, count: int)
    requires |items| <= count
    ensures |Numbered(channelTitle, items, count)| == |items| == |Requests(channelTitle, items, count)|
    ensures forall i | 0 <= i < |items| ::
      Numbered(channelTitle, items, count)[i] == RecordFor(channelTitle, items[i], count - i)
      && Requests(channelTitle, items, count)[i] == Download(RecordFor(channelTitle, items[i], count - i).fileName, items[i].url)
  {
    NumberingAt(RecordsOf(channelTitle), items, count);
    NumberingAt(RequestsOf(channelTitle), items, count);
  }

  /** The catalogue one run builds from a channel. */
  function Catalogue(channel: Channel): seq<EpisodeRecord> {
    Numbered(channel.title, channel.items, |channel.items|)
  }

  /** The ordinals a run gives `count` items, in document order. */
  function Ordinals(count: nat): seq<nat> {
    seq(count, i requires 0 <= i < count => count - i)
  }

  /** The ordinal each catalogue record carries at the front of its file name. */
  function FileOrdinals(records: seq<EpisodeRecord>): seq<nat> {
    seq(|records|, i requires 0 <= i < |records| => OrdinalOf(records[i].fileName))
  }

  /** The file names the requests ask for. */
  function Names(requests: seq<Download>): set<string>
    decreases |requests|
  {
    if requests == [] then {} else Names(requests[..|requests| - 1]) + {requests[|requests| - 1].fileName}
  }

  /**
   * The downloads a run performs for `requests`, in order, starting from a
   * directory that holds `storage`: a request is downloaded unless its file
   * is already there or an earlier request put it there.
   */
  function Downloads(storage: set<string>, requests: seq<Download>): seq<Download>
    decreases |requests|
  {
    if requests == [] then []
    else
      var earlier := requests[..|requests| - 1];
      var last := requests[|requests| - 1];
      Downloads(storage, earlier) + (if last.fileName in storage + Names(earlier) then [] else [last])
  }

  /** The requests whose file is not in `storage`, in order. */
  function Missing(storage: set<string>, requests: seq<Download>): seq<Download>
    decreases |requests|
  {
    if requests == [] then []
    else
      var earlier := requests[..|requests| - 1];
      var last := requests[|requests| - 1];
      Missing(storage, earlier) + (if last.fileName in storage then [] else [last])
  }

  // ---------------------------------------------------------------------
  // Properties of a run

  /** `Names` is the set of file names the requests mention. */
  lemma {:induction false} NamesMembers(requests: seq<Download>)
    ensures forall i | 0 <= i < |requests| :: requests[i].fileName in Names(requests)
    ensures forall name | name in Names(requests) :: exists i | 0 <= i < |requests| :: requests[i].fileName == name
    decreases |requests|
  {
    if requests != [] {
      var earlier := requests[..|requests| - 1];
      NamesMembers(earlier);
      assert forall i | 0 <= i < |earlier| :: earlier[i] == requests[i];
    }
  }

  lemma NamesSnoc(earlier: seq<Download>, last: Download)
    ensures Names(earlier + [last]) == Names(earlier) + {last.fileName}
  {
    assert (earlier + [last])[..|earlier|] == earlier;
  }

  lemma Associative<T>(a: seq<T>, b: seq<T>, c: seq<T>)
    ensures a + b + c == a + (b + c)
  {
  }

  lemma DownloadsStep(storage: set<string>, before: seq<Download>, next: Download)
    ensures Downloads(storage, before + [next])
         == Downloads(storage, before) + (if next.fileName in storage + Names(before) then [] else [next])
  {
    var all := before + [next];
    assert all[..|all| - 1] == before;
  }

  /** A file is downloaded exactly when some request names it and it was not in storage. */
  lemma {:induction false} DownloadedIffMissing(storage: set<string>, requests: seq<Download>)
    ensures Names(Downloads(storage, requests)) == Names(requests) - storage
    decreases |requests|
  {
    if requests != [] {
      var earlier, last := requests[..|requests| - 1], requests[|requests| - 1];
      DownloadedIffMissing(storage, earlier);
      var d := Downloads(storage, earlier);
      var name := last.fileName;
      assert Names(requests) == Names(earlier) + {name};
      if name !in storage + Names(earlier) {
        assert Downloads(storage, requests) == d + [last];
        NamesSnoc(d, last);
        assert Names(requests) - storage == (Names(earlier) - storage) + {name};
      } else {
        assert Downloads(storage, requests) == d + [];
        assert d + [] == d;
        assert Names(requests) - storage == Names(earlier) - storage;
      }
    }
  }

  /**
   * No file is downloaded that was already in storage, none is downloaded
   * twice, and every download is one of the requests.
   */
  lemma {:induction false} DownloadsOnce(storage: set<string>, requests: seq<Download>)
    ensures var d := Downloads(storage, requests);
      && (forall i | 0 <= i < |d| :: d[i].fileName !in storage && d[i] in requests)
      && (forall i, j | 0 <= i < j < |d| :: d[i].fileName != d[j].fileName)
    decreases |requests|
  {
    if requests != [] {
      var earlier, last := requests[..|requests| - 1], requests[|requests| - 1];
      DownloadsOnce(storage, earlier);
      DownloadedIffMissing(storage, earlier);
      var d0 := Downloads(storage, earlier);
      NamesMembers(d0);
      assert forall x | x in earlier :: x in requests;
    }
  }

  /** When no two requests share a file name, the run downloads exactly the missing ones, in order. */
  lemma {:induction false} DistinctDownloadsAreMissing(storage: set<string>, requests: seq<Download>)
    requires forall i, j | 0 <= i < j < |requests| :: requests[i].fileName != requests[j].fileName
    ensures Downloads(storage, requests) == Missing(storage, requests)
    decreases |requests|
  {
    if requests != [] {
      var earlier, last := requests[..|requests| - 1], requests[|requests| - 1];
      DistinctDownloadsAreMissing(storage, earlier);
      assert last.fileName !in Names(earlier) by {
        NamesMembers(earlier);
        forall i | 0 <= i < |earlier| ensures earlier[i].fileName != last.fileName {
          assert earlier[i] == requests[i];
        }
      }
    }
  }

  /** The ordinals are `count, count - 1, ..., 1`: each of 1..count exactly once. */
  lemma {:induction false} OrdinalsOneToCount(count: nat)
    ensures |Ordinals(count)| == count
    ensures count > 0 ==> Ordinals(count)[0] == count && Ordinals(count)[count - 1] == 1
    ensures forall k :: multiset(Ordinals(count))[k] == if 1 <= k <= count then 1 else 0
  {
    if count > 0 {
      OrdinalsOneToCount(count - 1);
      assert Ordinals(count) == [count] + Ordinals(count - 1);
    }
  }

  /**
   * The catalogue has one record per item, in document order, carrying
   * the item's title, date and duration; the record at position `i` has
   * ordinal `count - i` in its file name.
   */
  lemma CatalogueFollowsFeed(channel: Channel)
    ensures var c := Catalogue(channel);
      && |c| == |channel.items|
      && (forall i | 0 <= i < |c| ::
            c[i].episodeName == channel.items[i].title
            && c[i].publishDate == channel.items[i].pubDate
            && c[i].duration == channel.items[i].duration)
      && FileOrdinals(c) == Ordinals(|channel.items|)
  {
    var c := Catalogue(channel);
    var n := |channel.items|;
    NumberedAt(channel.title, channel.items, n);
    forall i | 0 <= i < n ensures FileOrdinals(c)[i] == Ordinals(n)[i] {
      RecordOrdinal(channel.title, channel.items[i], n - i);
    }
  }

  /** The ordinal at the front of a record's file name is the number it was given. */
  lemma RecordOrdinal(channelTitle: string, item: Item, n: nat)
    ensures OrdinalOf(RecordFor(channelTitle, item, n).fileName) == n
  {
    FileNameShape(channelTitle, item.title, n, item.pubDate);
  }

  /** The ordinals in a catalogue's file names are exactly 1..N, the last record having 1. */
  lemma CatalogueOrdinals(channel: Channel)
    ensures var ords := FileOrdinals(Catalogue(channel));
      var n := |channel.items|;
      && |ords| == n
      && (n > 0 ==> ords[0] == n && ords[n - 1] == 1)
      && forall k :: multiset(ords)[k] == if 1 <= k <= n then 1 else 0
  {
    CatalogueFollowsFeed(channel);
    OrdinalsOneToCount(|channel.items|);
  }

  /** No two records of a catalogue share a file name. */
  lemma CatalogueNamesDistinct(channelTitle: string, items: seq<Item>, count: int)
    requires |items| <= count
    ensures var r := Numbered(channelTitle, items, count);
      forall i, j | 0 <= i < j < |r| :: r[i].fileName != r[j].fileName
  {
    var r := Numbered(channelTitle, items, count);
    NumberedAt(channelTitle, items, count);
    forall i, j | 0 <= i < j < |r| ensures r[i].fileName != r[j].fileName {
      RecordNamesDiffer(channelTitle, items[i], items[j], count - i, count - j);
    }
  }

  /** Records numbered differently have different file names. */
  lemma RecordNamesDiffer(channelTitle: string, a: Item, b: Item, m: nat, n: nat)
    requires m != n
    ensures RecordFor(channelTitle, a, m).fileName != RecordFor(channelTitle, b, n).fileName
  {
    FileNameDistinct(channelTitle, a.title, m, a.pubDate, channelTitle, b.title, n, b.pubDate);
  }

  /**
   * A run downloads exactly the catalogue files missing from storage, in
   * document order, each once, and never one that was already there.
   */
  lemma RunDownloadsMissing(storage: set<string>, channel: Channel)
    ensures var requests := Requests(channel.title, channel.items, |channel.items|);
      var d := Downloads(storage, requests);
      && d == Missing(storage, requests)
      && Names(d) == Names(requests) - storage
      && forall i | 0 <= i < |d| :: d[i].fileName !in storage
  {
    var requests := Requests(channel.title, channel.items, |channel.items|);
    CatalogueNamesDistinct(channel.title, channel.items, |channel.items|);
    NumberedAt(channel.title, channel.items, |channel.items|);
    DistinctDownloadsAreMissing(storage, requests);
    DownloadedIffMissing(storage, requests);
    DownloadsOnce(storage, requests);
  }

  // ---------------------------------------------------------------------
  // One turn of the `process` loop

  /*
   * One turn of the loop of `process`, for the list, the storage and the
   * log in turn: if they reflect the first `i` items, then after handling
   * item `i` they reflect the first `i + 1`.
   */

  lemma ListStep<R>(make: (Item, nat) -> R, items: seq<Item>, count: int, i: nat, list0: seq<R>, list: seq<R>)
    requires i < |items| <= count
    requires list == list0 + Numbering(make, items[..i], count)
    ensures list + [make(items[i], count - i)] == list0 + Numbering(make, items[..i + 1], count)
  {
    NumberingStep(make, items, count, i);
    Associative(list0, Numbering(make, items[..i], count), [make(items[i], count - i)]);
  }

  lemma StorageStep(make: (Item, nat) -> Download, items: seq<Item>, count: int, i: nat,
                    storage0: set<string>, storage: set<string>)
    requires i < |items| <= count
    requires storage == storage0 + Names(Numbering(make, items[..i], count))
    ensures storage + {make(items[i], count - i).fileName} == storage0 + Names(Numbering(make, items[..i + 1], count))
  {
    NumberingStep(make, items, count, i);
    NamesSnoc(Numbering(make, items[..i], count), make(items[i], count - i));
  }

  lemma LogStep(make: (Item, nat) -> Download, items: seq<Item>, count: int, i: nat,
                storage0: set<string>, log0: seq<Download>, storage: set<string>, log: seq<Download>)
    requires i < |items| <= count
    requires storage == storage0 + Names(Numbering(make, items[..i], count))
    requires log == log0 + Downloads(storage0, Numbering(make, items[..i], count))
    ensures var next := make(items[i], count - i);
      log + (if next.fileName in storage then [] else [next]) == log0 + Downloads(storage0, Numbering(make, items[..i + 1], count))
  {
    var before, next := Numbering(make, items[..i], count), make(items[i], count - i);
    NumberingStep(make, items, count, i);
    DownloadsStep(storage0, before, next);
    Associative(log0, Downloads(storage0, before), if next.fileName in storage then [] else [next]);
  }

  // ---------------------------------------------------------------------
  // The downloader object

  class EpisodeDownloader {
    /** The parsed feed, or `None` until a request has answered 200. */
    var podcastRss: Option<Channel>
    var podcastTitle: string
    var podcastEpisodeList: seq<EpisodeRecord>
    /** The names of the files in the storage directory. */
    var storage: set<string>
    /** Every call of `download_file`, in order. */
    var downloadLog: seq<Download>
    /** The contents of `episodes.json`, if any. */
    var catalogFile: Option<seq<EpisodeRecord>>

    /** `__init__`, in a directory holding `files` and the catalogue `catalog`. */
    constructor (files: set<string>, catalog: Option<seq<EpisodeRecord>>)
      ensures podcastRss == None && podcastTitle == "" && podcastEpisodeList == []
      ensures storage == files && downloadLog == [] && catalogFile == catalog
    {
      podcastRss := None;
      podcastTitle := "";
      podcastEpisodeList := [];
      storage := files;
      downloadLog := [];
      catalogFile := catalog;
    }

    /** `has_episode_been_downloaded`: a file of that name is in the storage directory. */
    predicate HasEpisodeBeenDownloaded(fileName: string)
      reads this
    {
      fileName in storage
    }

    /** `download_file`: the file now exists in storage. */
    method DownloadFile(fileName: string, url: string)
      modifies this`storage, this`downloadLog
      ensures storage == old(storage) + {fileName}
      ensures downloadLog == old(downloadLog) + [Download(fileName, url)]
      ensures HasEpisodeBeenDownloaded(fileName)
    {
      storage := storage + {fileName};
      downloadLog := downloadLog + [Download(fileName, url)];
    }

    /** `set_podcast_rss_data`: a non-200 answer leaves the feed as it was. */
    method SetPodcastRssData(response: Response)
      modifies this`podcastRss
      ensures response.statusCode == 200 ==> podcastRss == Some(response.document)
      ensures response.statusCode != 200 ==> podcastRss == old(podcastRss)
    {
      if response.statusCode != 200 {
        return;
      }
      podcastRss := Some(response.document);
    }

    /**
     * `process_podcast_episode`: appends exactly one record, whether or not
     * the file is downloaded, and downloads it only when it is missing.
     */
    method ProcessPodcastEpisode(episode: Item, episodeNumber: nat)
      modifies this`podcastEpisodeList, this`storage, this`downloadLog
      ensures var record := RecordFor(old(podcastTitle), episode, episodeNumber);
        && podcastEpisodeList == old(podcastEpisodeList) + [record]
        && storage == old(storage) + {record.fileName}
        && downloadLog == old(downloadLog)
             + (if old(HasEpisodeBeenDownloaded(record.fileName)) then [] else [Download(record.fileName, episode.url)])
        && HasEpisodeBeenDownloaded(record.fileName)
    {
      var episodeTitle := episode.title;
      var publishDate := episode.pubDate;
      var mp3Url := episode.url;
      var fullEpisodeNumber := ZeroRun(3 - |Show(episodeNumber)|) + Show(episodeNumber);
      var fileName := FileName(podcastTitle, episodeTitle, fullEpisodeNumber, publishDate);
      var duration := episode.duration;
      podcastEpisodeList := podcastEpisodeList + [EpisodeRecord(episodeTitle, publishDate, fileName, duration)];
      if HasEpisodeBeenDownloaded(fileName) {
        return;
      }
      DownloadFile(fileName, mp3Url);
    }

    /**
     * One turn of the loop of `process`: with the list, the storage and the
     * log reflecting the first `i` items, `process_podcast_episode` on item
     * `i`, numbered `count - i`, makes them reflect the first `i + 1`.
     */
    method ProcessItem(channel: Channel, i: nat, ghost list0: seq<EpisodeRecord>, ghost storage0: set<string>,
                       ghost log0: seq<Download>)
      requires podcastTitle == channel.title && i < |channel.items|
      requires podcastEpisodeList == list0 + Numbered(channel.title, channel.items[..i], |channel.items|)
      requires storage == storage0 + Names(Requests(channel.title, channel.items[..i], |channel.items|))
      requires downloadLog == log0 + Downloads(storage0, Requests(channel.title, channel.items[..i], |channel.items|))
      modifies this`podcastEpisodeList, this`storage, this`downloadLog
      ensures podcastEpisodeList == list0 + Numbered(channel.title, channel.items[..i + 1], |channel.items|)
      ensures storage == storage0 + Names(Requests(channel.title, channel.items[..i + 1], |channel.items|))
      ensures downloadLog == log0 + Downloads(storage0, Requests(channel.title, channel.items[..i + 1], |channel.items|))
    {
      var count := |channel.items|;
      ghost var item := channel.items[i];
      assert RecordsOf(channel.title)(item, count - i) == RecordFor(podcastTitle, item, count - i);
      assert RequestsOf(channel.title)(item, count - i) == Download(RecordFor(podcastTitle, item, count - i).fileName, item.url);
      ListStep(RecordsOf(channel.title), channel.items, count, i, list0, podcastEpisodeList);
      StorageStep(RequestsOf(channel.title), channel.items, count, i, storage0, storage);
      LogStep(RequestsOf(channel.title), channel.items, count, i, storage0, log0, storage, downloadLog);
      ProcessPodcastEpisode(channel.items[i], |channel.items| - i);
    }

    /**
     * The loop of `process`: every item of the feed, numbered from the item
     * count down to 1, is handed to `process_podcast_episode` in order.
     */
    method ProcessEpisodes(channel: Channel)
      requires podcastTitle == channel.title
      modifies this`podcastEpisodeList, this`storage, this`downloadLog
      ensures var requests := Requests(channel.title, channel.items, |channel.items|);
        && podcastEpisodeList == old(podcastEpisodeList) + Catalogue(channel)
        && storage == old(storage) + Names(requests)
        && downloadLog == old(downloadLog) + Downloads(old(storage), requests)
    {
      var episodeCount := |channel.items|;
      for i := 0 to episodeCount
        invariant podcastEpisodeList == old(podcastEpisodeList) + Numbered(channel.title, channel.items[..i], episodeCount)
        invariant storage == old(storage) + Names(Requests(channel.title, channel.items[..i], episodeCount))
        invariant downloadLog == old(downloadLog) + Downloads(old(storage), Requests(channel.title, channel.items[..i], episodeCount))
      {
        ProcessItem(channel, i, old(podcastEpisodeList), old(storage), old(downloadLog));
      }
      assert channel.items[..episodeCount] == channel.items;
    }

    /**
     * `process`: fetch the feed, process its episodes and write the
     * catalogue. Without a feed (the request did not answer 200 and none
     * was fetched before) the run stops with an error before anything
     * else changes; `ok` is false then.
     */
    method Process(response: Response) returns (ok: bool)
      modifies this
      ensures ok <==> response.statusCode == 200 || old(podcastRss).Some?
      ensures !ok ==> (podcastRss == None && podcastTitle == old(podcastTitle)
        && podcastEpisodeList == old(podcastEpisodeList) && storage == old(storage)
        && downloadLog == old(downloadLog) && catalogFile == old(catalogFile))
      ensures ok ==>
        var channel := if response.statusCode == 200 then response.document else old(podcastRss).value;
        var requests := Requests(channel.title, channel.items, |channel.items|);
        && podcastRss == Some(channel)
        && podcastTitle == channel.title
        && podcastEpisodeList == old(podcastEpisodeList) + Catalogue(channel)
        && storage == old(storage) + Names(requests)
        && downloadLog == old(downloadLog) + Downloads(old(storage), requests)
        && catalogFile == Some(podcastEpisodeList)
    {
      SetPodcastRssData(response);
      if podcastRss.None? {
        return false;
      }
      var channel := podcastRss.value;
      podcastTitle := channel.title;
      ProcessEpisodes(channel);
      catalogFile := Some(podcastEpisodeList);
      ok := true;
    }
  }
}

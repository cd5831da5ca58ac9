/**
 * The download run of background.js: the reply to the album page's
 * `getTrackInfo` (`startDownload`), the per-track fan-out
 * (`extractTracksAndDownload`), the one-shot load listener per track tab,
 * `handleTrackTab`, and the `remainingTracks` countdown that calls
 * `finalizeDownloadProcess` when it reaches zero.
 *
 * Replies of the content script, the outcome of each `tabs.create`, the
 * order of `tabs.onUpdated` events and the image extension are inputs.
 */
module Background {
  import opened Wrappers
  import opened DownloadPaths
  import opened ArtUrl
  import opened TrackNames
  import opened Toolbar

  /** The content script's `getTrackInfo` reply: the art link, if any, and the title. */
  datatype TrackInfo = TrackInfo(artUrl: Option<string>, title: string)

  /** One entry of the content script's `getTrackList` reply. */
  datatype TrackLink = TrackLink(url: string, title: string)

  datatype Status = Loading | Complete

  /**
   * A `tabs.onUpdated` event for `tab`, with the reply the tab's content
   * script gives if the event is handled (`None` when the message fails) and
   * the extension the art download settles on.
   */
  datatype TabEvent = TabEvent(tab: TabId, status: Status, reply: Option<TrackInfo>, ext: Ext)

  /** `response && response.artUrl`: a reply with a non-empty art link. */
  predicate HasArt(reply: Option<TrackInfo>) {
    reply.Some? && reply.value.artUrl.Some? && reply.value.artUrl.value != []
  }

  /** What startDownload does with the album page's reply. */
  datatype AlbumOutcome =
    | Abort                                              // the message failed: cancelDownload
    | Proceed(downloads: seq<Download>, albumTitle: string) // go on to the tracks with the reply's title

  /** The downloads and continuation of startDownload, for the album page's reply. */
  function AlbumReply(reply: Option<TrackInfo>, ext: Ext): (o: AlbumOutcome)
    ensures o.Abort? <==> reply.None?
    ensures o.Proceed? ==> o.albumTitle == reply.value.title
    ensures o.Proceed? && !HasArt(reply) ==> o.downloads == []
    ensures o.Proceed? && HasArt(reply) ==>
      var dir := AlbumDirectory(reply.value.title);
      |o.downloads| == 2
      && o.downloads[0] == ArtFile(FullSizeArtUrl(reply.value.artUrl.value), ArtPath(dir, "cover", ext, true))
      && o.downloads[1] == EmptyYaml(YamlPath(dir))
  {
    match reply
    case None => Abort
    case Some(info) =>
      if HasArt(reply) then
        var albumName := AlbumDirectory(info.title);
        Proceed([ArtFile(FullSizeArtUrl(info.artUrl.value), ArtPath(albumName, "cover", ext, true)),
                 EmptyYaml(YamlPath(albumName))], info.title)
      else Proceed([], info.title)
  }

  /**
   * The album's cover is saved as `<album>/album-art/<album>/cover<ext>` and
   * its stub as `<album>/album/<album>.yaml`, in the album's directory.
   */
  lemma AlbumFilesInAlbumDirectory(reply: Option<TrackInfo>, ext: Ext)
    requires HasArt(reply)
    ensures var o := AlbumReply(reply, ext);
      var dir := AlbumDirectory(reply.value.title);
      o.Proceed? && |o.downloads| == 2
      && Split(o.downloads[0].fileName, '/') == [dir, "album-art", dir, "cover" + ExtSuffix(ext)]
      && Split(o.downloads[1].fileName, '/') == [dir, "album", dir + ".yaml"]
  {
    var dir := AlbumDirectory(reply.value.title);
    AlbumDirectoryIsOneComponent(reply.value.title);
    ArtPathComponents(dir, "cover", ext, true);
    YamlPathComponents(dir);
  }

  /** The download handleTrackTab asks for: the track's art, when its page has one. */
  function TrackDownloads(albumTitle: string, trackTitle: string, reply: Option<TrackInfo>, ext: Ext): seq<Download>
  {
    if HasArt(reply) then
      [ArtFile(FullSizeArtUrl(reply.value.artUrl.value),
               ArtPath(AlbumDirectory(albumTitle), NormalizeTrackName(trackTitle), ext, false))]
    else []
  }

  /**
   * The state of one run of extractTracksAndDownload: the `remainingTracks`
   * counter, the tabs whose load listener is still registered (with the
   * track's title), the tabs closed so far, the art downloads requested, and
   * how many times finalizeDownloadProcess was called.
   */
  datatype Join = Join(
    remaining: int,
    listening: map<TabId, string>,
    closed: seq<TabId>,
    downloads: seq<Download>,
    finalized: nat)

  /** The listeners registered by the fan-out: one per tab that `tabs.create` opened. */
  function Listeners(links: seq<TrackLink>, created: seq<Option<TabId>>): map<TabId, string>
    requires |created| == |links|
  {
    if links == [] then map[]
    else
      var n := |links| - 1;
      var m := Listeners(links[..n], created[..n]);
      match created[n]
      case None => m
      case Some(t) => m[t := links[n].title]
  }

  /** The run right after the fan-out: the counter is the number of links. */
  function Open(links: seq<TrackLink>, created: seq<Option<TabId>>): Join
    requires |created| == |links|
  {
    Join(|links|, Listeners(links, created), [], [], 0)
  }

  /**
   * One `tabs.onUpdated` event. The first `complete` event of a listened tab
   * removes its listener, requests the art download, closes the tab and
   * runs the callback, which decrements the counter and finalizes at zero.
   * Any other event leaves the run as it is.
   */
  function Step(albumTitle: string, j: Join, e: TabEvent): Join
  {
    if e.tab in j.listening && e.status == Complete then
      var remaining := j.remaining - 1;
      Join(remaining,
           j.listening - {e.tab},
           j.closed + [e.tab],
           j.downloads + TrackDownloads(albumTitle, j.listening[e.tab], e.reply, e.ext),
           if remaining == 0 then j.finalized + 1 else j.finalized)
    else j
  }

  /** The run after a sequence of events, delivered in order. */
  function Steps(albumTitle: string, j: Join, es: seq<TabEvent>): Join
  {
    if es == [] then j else Step(albumTitle, Steps(albumTitle, j, es[..|es| - 1]), es[|es| - 1])
  }

  /** The ids of the tabs `tabs.create` opened, in the order of the links. */
  function CreatedIds(created: seq<Option<TabId>>): seq<TabId>
  {
    if created == [] then []
    else
      var n := |created| - 1;
      CreatedIds(created[..n]) + (match created[n] case None => [] case Some(t) => [t])
  }

  /** The browser gives distinct tabs distinct ids. */
  predicate DistinctTabs(created: seq<Option<TabId>>) {
    forall i, k :: 0 <= i < k < |created| && created[i].Some? && created[k].Some?
                   ==> created[i].value != created[k].value
  }

  predicate NoDuplicates(s: seq<TabId>) {
    forall i, k :: 0 <= i < k < |s| ==> s[i] != s[k]
  }

  /** The opened tabs that some event of `es` reported `complete`. */
  function Completed(es: seq<TabEvent>, ids: seq<TabId>): set<TabId>
  {
    set k | 0 <= k < |es| && es[k].status == Complete && es[k].tab in ids :: es[k].tab
  }

  lemma {:induction false} ListenersAreCreatedTabs(links: seq<TrackLink>, created: seq<Option<TabId>>)
    requires |created| == |links|
    ensures forall t :: t in Listeners(links, created) <==> t in CreatedIds(created)
  {
    if links != [] {
      var n := |links| - 1;
      ListenersAreCreatedTabs(links[..n], created[..n]);
    }
  }

  /** The listener of the tab opened for link `i` holds that link's title, the `track.title` its closure captured. */
  lemma {:induction false} ListenerTitle(links: seq<TrackLink>, created: seq<Option<TabId>>, i: nat, t: TabId)
    requires |created| == |links| && DistinctTabs(created)
    requires i < |created| && created[i] == Some(t)
    ensures t in Listeners(links, created) && Listeners(links, created)[t] == links[i].title
  {
    var n := |links| - 1;
    if i < n {
      assert DistinctTabs(created[..n]);
      assert links[..n][i] == links[i] && created[..n][i] == created[i];
      ListenerTitle(links[..n], created[..n], i, t);
    }
  }

  /** An opened tab's id comes from one of the creates. */
  lemma {:induction false} CreatedIdFrom(created: seq<Option<TabId>>, t: TabId) returns (i: nat)
    requires t in CreatedIds(created)
    ensures i < |created| && created[i] == Some(t)
  {
    var n := |created| - 1;
    if t in CreatedIds(created[..n]) {
      i := CreatedIdFrom(created[..n], t);
    } else {
      i := n;
    }
  }

  lemma {:induction false} CreatedIdsLength(created: seq<Option<TabId>>)
    ensures |CreatedIds(created)| <= |created|
    ensures (forall i :: 0 <= i < |created| ==> created[i].Some?) ==> |CreatedIds(created)| == |created|
    ensures DistinctTabs(created) ==> NoDuplicates(CreatedIds(created))
  {
    if created != [] {
      var n := |created| - 1;
      var front := created[..n];
      CreatedIdsLength(front);
      if created[n].Some? && DistinctTabs(created) {
        var t := created[n].value;
        if t in CreatedIds(front) {
          var i := CreatedIdFrom(front, t);
          assert created[i] == Some(t);
        }
      }
    }
  }

  /** A create that failed leaves fewer opened tabs than links. */
  lemma {:induction false} FailedCreateShortens(created: seq<Option<TabId>>, i: nat)
    requires i < |created| && created[i].None?
    ensures |CreatedIds(created)| < |created|
  {
    var n := |created| - 1;
    CreatedIdsLength(created[..n]);
    if i < n {
      FailedCreateShortens(created[..n], i);
    }
  }

  /** A list without repetitions drawn from `t` is no longer than `t`. */
  lemma {:induction false} NoDuplicatesLength(s: seq<TabId>, t: seq<TabId>)
    requires NoDuplicates(s) && forall x :: x in s ==> x in t
    ensures |s| <= |t|
  {
    if s != [] {
      var n := |s| - 1;
      assert s[n] in s;
      var i :| 0 <= i < |t| && t[i] == s[n];
      var t' := t[..i] + t[i + 1..];
      var s' := s[..n];
      forall y | y in s' ensures y in t' {
        var m :| 0 <= m < n && s'[m] == y;
        assert s[m] == y && y != s[n] && y in s;
        var k :| 0 <= k < |t| && t[k] == y;
        if k < i { assert t'[k] == y; } else { assert t'[k - 1] == y; }
      }
      NoDuplicatesLength(s', t');
    }
  }

  /** A list without repetitions drawn from `t` and as long as `t` holds all of `t`. */
  lemma CoversWhenAsLong(s: seq<TabId>, t: seq<TabId>)
    requires NoDuplicates(s) && (forall x :: x in s ==> x in t) && |s| == |t|
    ensures forall x :: x in t ==> x in s
  {
    forall y | y in t ensures y in s {
      if y !in s {
        var s' := s + [y];
        assert forall x :: x in s' ==> x in t;
        NoDuplicatesLength(s', t);
      }
    }
  }

  /**
   * The invariant of the countdown, for `n` links that opened the tabs
   * `ids`, of which the tabs `done` have completed.
   */
  ghost predicate Accounts(n: int, ids: seq<TabId>, done: set<TabId>, j: Join) {
    |ids| <= n
    && (forall t :: t in done ==> t in ids)
    && (forall t :: t in j.listening <==> t in ids && t !in done)
    && (forall t :: t in j.closed <==> t in done)
    && NoDuplicates(j.closed)
    && j.remaining == n - |j.closed|
    && j.finalized == (if n > 0 && |j.closed| == n then 1 else 0)
  }

  lemma StepAccounts(albumTitle: string, n: int, ids: seq<TabId>, done: set<TabId>, j: Join, e: TabEvent)
    requires Accounts(n, ids, done, j)
    ensures Accounts(n, ids, done + (if e.status == Complete && e.tab in ids then {e.tab} else {}),
                     Step(albumTitle, j, e))
  {
    if e.tab in j.listening && e.status == Complete {
      var j' := Step(albumTitle, j, e);
      assert forall t :: t in j'.closed <==> t in j.closed || t == e.tab;
      NoDuplicatesLength(j'.closed, ids);
    } else if e.status == Complete && e.tab in ids {
      assert done + {e.tab} == done;
    }
  }

  lemma CompletedSnoc(es: seq<TabEvent>, e: TabEvent, ids: seq<TabId>)
    ensures Completed(es + [e], ids)
            == Completed(es, ids) + (if e.status == Complete && e.tab in ids then {e.tab} else {})
  {
    var es' := es + [e];
    assert forall k :: 0 <= k < |es| ==> es'[k] == es[k];
    assert es'[|es|] == e;
  }

  lemma {:induction false} StepsAccount(albumTitle: string, links: seq<TrackLink>,
                                        created: seq<Option<TabId>>, es: seq<TabEvent>)
    requires |created| == |links|
    ensures Accounts(|links|, CreatedIds(created), Completed(es, CreatedIds(created)),
                     Steps(albumTitle, Open(links, created), es))
  {
    var ids := CreatedIds(created);
    if es == [] {
      ListenersAreCreatedTabs(links, created);
      CreatedIdsLength(created);
      assert Completed(es, ids) == {};
    } else {
      var front := es[..|es| - 1];
      var e := es[|es| - 1];
      assert es == front + [e];
      StepsAccount(albumTitle, links, created, front);
      CompletedSnoc(front, e, ids);
      StepAccounts(albumTitle, |links|, ids, Completed(front, ids), Steps(albumTitle, Open(links, created), front), e);
    }
  }

  /** Events only remove listeners: every listener left holds the title it was registered with. */
  lemma {:induction false} ListeningKeepsTitles(albumTitle: string, links: seq<TrackLink>,
                                                created: seq<Option<TabId>>, es: seq<TabEvent>)
    requires |created| == |links|
    ensures var j := Steps(albumTitle, Open(links, created), es);
      forall t :: t in j.listening ==> t in Listeners(links, created) && j.listening[t] == Listeners(links, created)[t]
  {
    if es != [] {
      ListeningKeepsTitles(albumTitle, links, created, es[..|es| - 1]);
    }
  }

  /**
   * The first `complete` event of the tab opened for link `i` requests the
   * art download named after that link's title, and no other download.
   */
  lemma FirstCompletionUsesOwnTitle(albumTitle: string, links: seq<TrackLink>, created: seq<Option<TabId>>,
                                    es: seq<TabEvent>, e: TabEvent, i: nat)
    requires |created| == |links| && DistinctTabs(created)
    requires i < |created| && created[i] == Some(e.tab) && e.status == Complete
    requires e.tab !in Completed(es, CreatedIds(created))
    ensures Steps(albumTitle, Open(links, created), es + [e]).downloads
            == Steps(albumTitle, Open(links, created), es).downloads
               + TrackDownloads(albumTitle, links[i].title, e.reply, e.ext)
  {
    var j := Steps(albumTitle, Open(links, created), es);
    assert (es + [e])[..|es|] == es && (es + [e])[|es|] == e;
    ListenerTitle(links, created, i, e.tab);
    ListenersAreCreatedTabs(links, created);
    StepsAccount(albumTitle, links, created, es);
    assert e.tab in j.listening;
    ListeningKeepsTitles(albumTitle, links, created, es);
  }

  /**
   * An event that is not the first `complete` of an opened tab finds no
   * listener to run, so it changes nothing: no download, no close, no count.
   */
  lemma OtherEventChangesNothing(albumTitle: string, links: seq<TrackLink>, created: seq<Option<TabId>>,
                                 es: seq<TabEvent>, e: TabEvent)
    requires |created| == |links|
    requires !(e.status == Complete && e.tab in CreatedIds(created) && e.tab !in Completed(es, CreatedIds(created)))
    ensures Steps(albumTitle, Open(links, created), es + [e]) == Steps(albumTitle, Open(links, created), es)
  {
    assert (es + [e])[..|es|] == es && (es + [e])[|es|] == e;
    StepsAccount(albumTitle, links, created, es);
  }

  /** The `remainingTracks` counter never goes below zero. */
  lemma RemainingNeverNegative(albumTitle: string, links: seq<TrackLink>,
                               created: seq<Option<TabId>>, es: seq<TabEvent>)
    requires |created| == |links|
    ensures Steps(albumTitle, Open(links, created), es).remaining >= 0
  {
    StepsAccount(albumTitle, links, created, es);
    CreatedIdsLength(created);
    NoDuplicatesLength(Steps(albumTitle, Open(links, created), es).closed, CreatedIds(created));
  }

  /**
   * With every tab opened, finalizeDownloadProcess has run once when every
   * track tab has completed, and not at all before; it never runs twice.
   */
  lemma FinalizeOnceWhenAllComplete(albumTitle: string, links: seq<TrackLink>,
                                    created: seq<Option<TabId>>, es: seq<TabEvent>)
    requires |created| == |links| && |links| > 0 && DistinctTabs(created)
    requires forall i :: 0 <= i < |created| ==> created[i].Some?
    ensures var j := Steps(albumTitle, Open(links, created), es);
      var ids := CreatedIds(created);
      j.finalized <= 1
      && (j.finalized == 1 <==> forall t :: t in ids ==> t in Completed(es, ids))
  {
    var ids := CreatedIds(created);
    var j := Steps(albumTitle, Open(links, created), es);
    StepsAccount(albumTitle, links, created, es);
    CreatedIdsLength(created);
    NoDuplicatesLength(j.closed, ids);
    if |j.closed| == |links| {
      CoversWhenAsLong(j.closed, ids);
    }
    if forall t :: t in ids ==> t in Completed(es, ids) {
      NoDuplicatesLength(ids, j.closed);
    }
  }

  /**
   * The call to finalizeDownloadProcess happens on the event that completes
   * the last outstanding track tab: that event is a `complete` for an opened
   * tab not completed before, and after it every link's tab has opened and
   * completed.
   */
  lemma FinalizeOnLastCompletion(albumTitle: string, links: seq<TrackLink>,
                                 created: seq<Option<TabId>>, es: seq<TabEvent>, k: nat)
    requires |created| == |links|
    requires k < |es|
    requires Steps(albumTitle, Open(links, created), es[..k]).finalized == 0
    requires Steps(albumTitle, Open(links, created), es[..k + 1]).finalized == 1
    ensures var ids := CreatedIds(created);
      es[k].status == Complete && es[k].tab in ids && es[k].tab !in Completed(es[..k], ids)
      && |ids| == |links| && (forall t :: t in ids ==> t in Completed(es[..k + 1], ids))
  {
    var ids := CreatedIds(created);
    StepsAccount(albumTitle, links, created, es[..k]);
    StepsAccount(albumTitle, links, created, es[..k + 1]);
    assert es[..k + 1] == es[..k] + [es[k]];
    CompletedSnoc(es[..k], es[k], ids);
    var j := Steps(albumTitle, Open(links, created), es[..k + 1]);
    NoDuplicatesLength(j.closed, ids);
    CoversWhenAsLong(j.closed, ids);
  }

  /**
   * A tab that failed to open is never counted down: the counter stays
   * above zero and finalizeDownloadProcess never runs.
   */
  lemma FailedTabNeverFinalizes(albumTitle: string, links: seq<TrackLink>,
                                created: seq<Option<TabId>>, es: seq<TabEvent>, i: nat)
    requires |created| == |links| && i < |created| && created[i].None?
    ensures var j := Steps(albumTitle, Open(links, created), es);
      j.remaining > 0 && j.finalized == 0
  {
    StepsAccount(albumTitle, links, created, es);
    FailedCreateShortens(created, i);
    var j := Steps(albumTitle, Open(links, created), es);
    NoDuplicatesLength(j.closed, CreatedIds(created));
  }

  /** With no track links, no listener is registered and no event changes the run. */
  lemma {:induction false} NoLinksNoTabs(albumTitle: string, es: seq<TabEvent>)
    ensures Open([], []).listening == map[]
    ensures Steps(albumTitle, Open([], []), es) == Open([], [])
  {
    if es != [] {
      NoLinksNoTabs(albumTitle, es[..|es| - 1]);
    }
  }

  /**
   * Every tab is closed once at most, and exactly the opened tabs reported
   * `complete` are closed, whatever their content script replied.
   */
  lemma EachTabClosedOnce(albumTitle: string, links: seq<TrackLink>,
                          created: seq<Option<TabId>>, es: seq<TabEvent>)
    requires |created| == |links|
    ensures var j := Steps(albumTitle, Open(links, created), es);
      NoDuplicates(j.closed)
      && (forall t :: t in j.closed <==> t in Completed(es, CreatedIds(created)))
  {
    StepsAccount(albumTitle, links, created, es);
  }

  /**
   * handleTrackTab: the first `complete` event of a listened tab closes it
   * and counts it down, whether or not its page gave an art link; the art is
   * downloaded only when it did. A second event for that tab does nothing.
   */
  lemma HandleTrackTabOnce(albumTitle: string, j: Join, e: TabEvent)
    requires e.tab in j.listening && e.status == Complete
    ensures var j' := Step(albumTitle, j, e);
      j'.closed == j.closed + [e.tab]
      && j'.remaining == j.remaining - 1
      && e.tab !in j'.listening
      && (HasArt(e.reply) <==> |j'.downloads| == |j.downloads| + 1)
      && (!HasArt(e.reply) ==> j'.downloads == j.downloads)
      && Step(albumTitle, j', e) == j'
  {
  }

  /** A track page without an art link leads to no download at all. */
  lemma {:induction false} NoArtNoTrackDownload(albumTitle: string, trackTitle: string, reply: Option<TrackInfo>, ext: Ext)
    requires !HasArt(reply)
    ensures TrackDownloads(albumTitle, trackTitle, reply, ext) == []
  {
  }

  /**
   * A track's art download is saved under the album's directory with the
   * track's slug as its name.
   */
  lemma TrackDownloadInAlbum(albumTitle: string, trackTitle: string, reply: Option<TrackInfo>, ext: Ext)
    requires HasArt(reply)
    ensures var d := TrackDownloads(albumTitle, trackTitle, reply, ext);
      var dir := AlbumDirectory(albumTitle);
      |d| == 1 && d[0].ArtFile?
      && d[0].url == FullSizeArtUrl(reply.value.artUrl.value)
      && Split(d[0].fileName, '/') == [dir, "album-art", dir, NormalizeTrackName(trackTitle) + ExtSuffix(ext)]
  {
    TrackArtStaysInAlbum(albumTitle, trackTitle, ext);
  }

  /** One run of extractTracksAndDownload after a reply with track links. */
  class TrackSession {
    const board: ActionBoard
    const albumTitle: string
    var remaining: int
    var listening: map<TabId, string>
    var closed: seq<TabId>
    var downloads: seq<Download>
    var finalized: nat

    function Value(): Join
      reads this
    {
      Join(remaining, listening, closed, downloads, finalized)
    }

    /**
     * The fan-out: `remainingTracks` is set to the number of links, and for
     * each link whose tab `tabs.create` opened a one-shot load listener is
     * registered. A failed create only logs.
     */
    constructor (board: ActionBoard, albumTitle: string, links: seq<TrackLink>, created: seq<Option<TabId>>)
      requires |created| == |links|
      ensures this.board == board && this.albumTitle == albumTitle
      ensures Value() == Open(links, created)
    {
      var m: map<TabId, string> := map[];
      for i := 0 to |links|
        invariant m == Listeners(links[..i], created[..i])
      {
        assert links[..i + 1][..i] == links[..i] && created[..i + 1][..i] == created[..i];
        match created[i] {
          case Some(t) => m := m[t := links[i].title];
          case None =>
        }
      }
      assert links[..|links|] == links && created[..|created|] == created;
      this.board := board;
      this.albumTitle := albumTitle;
      remaining := |links|;
      listening := m;
      closed := [];
      downloads := [];
      finalized := 0;
    }

    /**
     * handleTrackTab and its callback: the art download if the page has one,
     * then, in every case, the tab is closed and the counter decremented;
     * at zero the run is finalized.
     */
    method HandleTrackTab(tab: TabId, trackTitle: string, reply: Option<TrackInfo>, ext: Ext)
      modifies this, board
      ensures remaining == old(remaining) - 1 && listening == old(listening)
      ensures closed == old(closed) + [tab]
      ensures downloads == old(downloads) + TrackDownloads(albumTitle, trackTitle, reply, ext)
      ensures finalized == if remaining == 0 then old(finalized) + 1 else old(finalized)
      ensures board.Value() == if remaining == 0 then Set(old(board.Value()), None, Idle) else old(board.Value())
    {
      downloads := downloads + TrackDownloads(albumTitle, trackTitle, reply, ext);
      closed := closed + [tab];
      remaining := remaining - 1;
      if remaining == 0 {
        finalized := finalized + 1;
        board.FinalizeDownloadProcess();
      }
    }

    /** The load listener of every tab of the run, for one `tabs.onUpdated` event. */
    method OnUpdated(e: TabEvent)
      modifies this, board
      ensures Value() == Step(albumTitle, old(Value()), e)
      ensures board.Value() == if finalized > old(finalized) then Set(old(board.Value()), None, Idle)
                               else old(board.Value())
    {
      if e.tab in listening && e.status == Complete {
        var trackTitle := listening[e.tab];
        listening := listening - {e.tab};
        HandleTrackTab(e.tab, trackTitle, e.reply, e.ext);
      }
    }
  }

  /** The rest of startDownload once the album page replied: the cover and stub downloads, or a cancel. */
  method StartDownloadReply(board: ActionBoard, tab: TabId, url: string, reply: Option<TrackInfo>, ext: Ext)
    returns (outcome: AlbumOutcome)
    modifies board
    ensures outcome == AlbumReply(reply, ext)
    ensures reply.None? ==>
      board.Value() == Set(Set(old(board.Value()), Some(tab), Idle), Some(tab), PageActionFor(url))
    ensures reply.None? ==> Shown(board.Value(), tab) == PageActionFor(url)
    ensures reply.Some? ==> board.Value() == old(board.Value())
  {
    outcome := AlbumReply(reply, ext);
    if reply.None? {
      board.CancelDownload(tab, url);
    }
  }

  /**
   * extractTracksAndDownload: a reply with a list of links (possibly empty)
   * starts a run; a failed or empty reply only logs.
   */
  method ExtractTracksAndDownload(board: ActionBoard, albumTitle: string,
                                  reply: Option<seq<TrackLink>>, created: seq<Option<TabId>>)
    returns (run: Option<TrackSession>)
    requires reply.Some? ==> |created| == |reply.value|
    ensures run.Some? <==> reply.Some?
    ensures run.Some? ==>
      fresh(run.value) && run.value.board == board
      && run.value.albumTitle == albumTitle && run.value.Value() == Open(reply.value, created)
  {
    if reply.Some? {
      var session := new TrackSession(board, albumTitle, reply.value, created);
      run := Some(session);
    } else {
      run := None;
    }
  }
}

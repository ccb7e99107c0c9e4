/** Paged reads of the store: loading settings with their page ETags, and checking recorded
    page ETags (internal/loader/settings_client.go; CreateKeyValueSettings in
    internal/loader/configuration_setting_loader.go). */
module SettingsClient {
  import opened Wrappers
  import opened Selectors
  import opened SettingLoader
  import opened SelectorMeaning

  type ETag = string

  datatype Page = Page(settings: Option<seq<Setting>>, etag: ETag)

  /** A key-filter query. The order of tag filters does not matter to the store. */
  datatype Query = Query(keyFilter: string, labelFilter: Option<string>, tagFilters: multiset<string>)

  /** The store as a pager shows it: the current pages of every query, and the pages whose
      reading fails. Asked with conditions, page i comes without an ETag exactly when it
      still has the ETag of condition i. */
  datatype Server = Server(pages: Query -> seq<Page>, fails: (Query, nat) -> bool)

  /** The ETag that a conditional read of page i reports. */
  function ReportedETag(page: Page, i: nat, conditions: seq<ETag>): Option<ETag> {
    if i < |conditions| && conditions[i] == page.etag then None else Some(page.etag)
  }

  /** The query that loads a selector. */
  function FetchQuery(s: Selector): Query
    requires s.keyFilter.Some?
  {
    Query(s.keyFilter.value, s.labelFilter, multiset(s.tagFilters))
  }

  /** The query that checks a recorded selector: an absent label becomes the null label. */
  function CheckQuery(c: ComparableSelector): Query
    requires c.keyFilter.Some?
  {
    var filter := FromComparable(c);
    FetchQuery(if filter.labelFilter.None? then filter.(labelFilter := Some(NULL_LABEL)) else filter)
  }

  /** The check asks the query that was loaded exactly when the selector has a label. */
  lemma CheckAsksFetchedQuery(s: Selector)
    requires s.keyFilter.Some?
    ensures CheckQuery(Comparable(s)) == FetchQuery(s) <==> s.labelFilter.Some?
  {
    ComparableRoundTrip(s);
  }

  function ETags(pages: seq<Page>): (r: seq<ETag>)
    ensures |r| == |pages|
    ensures forall i :: 0 <= i < |r| ==> r[i] == pages[i].etag
  {
    seq(|pages|, i requires 0 <= i < |pages| => pages[i].etag)
  }

  // ---------------------------------------------------------------- checking

  datatype CheckResult = Changed | Unchanged | CheckFailed

  /** The recorded selector's pages no longer have the recorded ETags. */
  ghost predicate HasChanged(server: Server, c: ComparableSelector, recorded: seq<ETag>) {
    c.keyFilter.Some? && ETags(server.pages(CheckQuery(c))) != recorded
  }

  /** One recorded selector: reads page after page until one reports an ETag, then compares
      the number of pages. */
  method CheckSelector(server: Server, c: ComparableSelector, pageEtags: seq<ETag>) returns (r: CheckResult)
    requires c.keyFilter.Some?
    ensures r.Changed? ==> HasChanged(server, c, pageEtags)
    ensures r.Unchanged? ==> !HasChanged(server, c, pageEtags)
    ensures r.CheckFailed? ==> exists i: nat :: server.fails(CheckQuery(c), i)
  {
    var query := CheckQuery(c);
    var pages := server.pages(query);
    var pageCount := 0;
    while pageCount < |pages|
      invariant 0 <= pageCount <= |pages|
      invariant pageCount <= |pageEtags| && forall i :: 0 <= i < pageCount ==> pages[i].etag == pageEtags[i]
    {
      if server.fails(query, pageCount) {
        return CheckFailed;
      }
      var reported := ReportedETag(pages[pageCount], pageCount, pageEtags);
      if reported.Some? {
        assert pageCount < |pageEtags| ==> ETags(pages)[pageCount] != pageEtags[pageCount];
        return Changed;
      }
      pageCount := pageCount + 1;
    }
    if pageCount != |pageEtags| {
      return Changed;
    }
    r := Unchanged;
  }

  /** Checks the recorded selectors in any order. Unless a page cannot be read, a change is
      reported exactly when some recorded key-filter selector has changed. */
  method CheckPageETags(server: Server, etags: map<ComparableSelector, seq<ETag>>) returns (r: CheckResult)
    ensures r.Changed? ==> exists c :: c in etags && HasChanged(server, c, etags[c])
    ensures r.Unchanged? ==> forall c :: c in etags ==> !HasChanged(server, c, etags[c])
    ensures r.CheckFailed? ==> exists c, i: nat :: c in etags && c.keyFilter.Some? && server.fails(CheckQuery(c), i)
  {
    var left := etags.Keys;
    while left != {}
      invariant left <= etags.Keys
      invariant forall c :: c in etags.Keys - left ==> !HasChanged(server, c, etags[c])
      decreases left
    {
      var c :| c in left;
      if c.keyFilter.Some? {
        r := CheckSelector(server, c, etags[c]);
        if !r.Unchanged? {
          return;
        }
      }
      left := left - {c};
    }
    r := Unchanged;
  }

  // ---------------------------------------------------------------- loading

  /** The settings on the pages, in order; a page without a list of settings has none. */
  function SettingsOn(pages: seq<Page>): seq<Setting> {
    if pages == [] then [] else pages[0].settings.GetOr([]) + SettingsOn(pages[1..])
  }

  /** The ETags that loading records: those of the pages with a list of settings. */
  function RecordedETags(pages: seq<Page>): seq<ETag> {
    if pages == [] then []
    else (if pages[0].settings.Some? then [pages[0].etag] else []) + RecordedETags(pages[1..])
  }

  /** Every page carries a list of settings. */
  ghost predicate FullPages(pages: seq<Page>) {
    forall i :: 0 <= i < |pages| ==> pages[i].settings.Some?
  }

  lemma {:induction false} RecordsAllExactly(pages: seq<Page>)
    ensures |RecordedETags(pages)| <= |pages|
    ensures RecordedETags(pages) == ETags(pages) <==> FullPages(pages)
  {
    if pages != [] {
      RecordsAllExactly(pages[1..]);
      assert pages == [pages[0]] + pages[1..];
      if FullPages(pages) {
        assert ETags(pages) == [pages[0].etag] + ETags(pages[1..]);
      } else if pages[0].settings.Some? {
        assert RecordedETags(pages)[1..] == RecordedETags(pages[1..]);
        assert ETags(pages)[1..] == ETags(pages[1..]);
        assert !FullPages(pages[1..]) by {
          var i :| 0 <= i < |pages| && pages[i].settings.None?;
          assert pages[1..][i - 1].settings.None?;
        }
      }
    }
  }

  ghost predicate Readable(server: Server, query: Query) {
    forall i: nat :: i < |server.pages(query)| ==> !server.fails(query, i)
  }

  /** Reads all pages of one selector. */
  method FetchSelector(server: Server, query: Query) returns (ok: bool, settings: seq<Setting>, etags: seq<ETag>)
    ensures ok <==> Readable(server, query)
    ensures ok ==> settings == SettingsOn(server.pages(query)) && etags == RecordedETags(server.pages(query))
  {
    hide SettingsOn, RecordedETags;
    var pages := server.pages(query);
    settings, etags := [], [];
    NoPages();
    assert pages[0..] == pages;
    var i := 0;
    while i < |pages|
      invariant 0 <= i <= |pages|
      invariant forall k: nat :: k < i ==> !server.fails(query, k)
      invariant settings + SettingsOn(pages[i..]) == SettingsOn(pages)
      invariant etags + RecordedETags(pages[i..]) == RecordedETags(pages)
    {
      if server.fails(query, i) {
        return false, settings, etags;
      }
      OnePage(pages, i);
      if pages[i].settings.Some? {
        settings := settings + pages[i].settings.value;
        etags := etags + [pages[i].etag];
      }
      i := i + 1;
    }
    assert pages[i..] == [];
    ok := true;
  }

  lemma NoPages()
    ensures SettingsOn([]) == [] && RecordedETags([]) == []
  {
  }

  lemma OnePage(pages: seq<Page>, i: nat)
    requires i < |pages|
    ensures SettingsOn(pages[i..]) == pages[i].settings.GetOr([]) + SettingsOn(pages[i + 1..])
    ensures RecordedETags(pages[i..])
            == (if pages[i].settings.Some? then [pages[i].etag] else []) + RecordedETags(pages[i + 1..])
  {
    assert pages[i..][0] == pages[i] && pages[i..][1..] == pages[i + 1..];
  }

  /** The store's answers as whole lists of settings. */
  ghost function Answers(server: Server): Answering {
    (c: ComparableSelector) =>
      if c.keyFilter.Some? && Readable(server, FetchQuery(FromComparable(c)))
      then Success(SettingsOn(server.pages(FetchQuery(FromComparable(c)))))
      else Failure(LoadFailed)
  }

  /** Loads one selector: the pages of a key filter, or a snapshot. */
  method GetSelector(c: Context, server: Server, filter: Selector)
    returns (settings: Result<seq<Setting>, Error>, latestEtags: seq<ETag>)
    ensures SameOutcome(settings, LoadSelector(c, Answers(server), filter))
    ensures settings.Success? && filter.keyFilter.Some? ==>
              latestEtags == RecordedETags(server.pages(FetchQuery(filter)))
  {
    latestEtags := [];
    if filter.keyFilter.Some? {
      ComparableRoundTrip(filter);
      assert FetchQuery(FromComparable(Comparable(filter))) == FetchQuery(filter);
      var ok, pageSettings, etags := FetchSelector(server, FetchQuery(filter));
      latestEtags := etags;
      settings := if ok then Success(pageSettings) else Failure(LoadFailed);
    } else if filter.snapshotName.Some? {
      settings := c.snapshots(filter.snapshotName.value);
    } else {
      settings := Failure(LoadFailed);
    }
  }

  /** The ETags that loading a list of selectors records. */
  ghost predicate RecordedFor(etags: map<ComparableSelector, seq<ETag>>, server: Server, selectors: seq<Selector>) {
    && (forall s :: s in selectors && s.keyFilter.Some? ==>
          Comparable(s) in etags && etags[Comparable(s)] == RecordedETags(server.pages(FetchQuery(s))))
    && (forall k :: k in etags ==> exists s :: s in selectors && s.keyFilter.Some? && Comparable(s) == k)
  }

  /** Recording one more selector; one of the same comparable form has the same ETags. */
  lemma RecordedOneMore(etags: map<ComparableSelector, seq<ETag>>, server: Server, selectors: seq<Selector>,
                        s: Selector)
    requires RecordedFor(etags, server, selectors)
    ensures s.keyFilter.Some? ==>
              RecordedFor(etags[Comparable(s) := RecordedETags(server.pages(FetchQuery(s)))], server, selectors + [s])
    ensures s.keyFilter.None? ==> RecordedFor(etags, server, selectors + [s])
  {
    hide Comparable, RecordedETags;
    forall x | x in selectors && x.keyFilter.Some? && s.keyFilter.Some? && Comparable(x) == Comparable(s)
      ensures FetchQuery(x) == FetchQuery(s)
    {
      SameComparableSameQuery(x, s);
    }
    assert forall x :: x in selectors ==> x in selectors + [s];
    assert s in selectors + [s];
  }

  lemma SameComparableSameQuery(x: Selector, s: Selector)
    requires Comparable(x) == Comparable(s) && x.keyFilter.Some? && s.keyFilter.Some?
    ensures FetchQuery(x) == FetchQuery(s)
  {
    ComparableIsCanonical(x, s);
  }

  lemma {:induction false} LoadAllAppend(c: Context, query: Answering, selectors: seq<Selector>,
                                         s: Selector)
    ensures var all, first, last :=
      LoadAll(c, query, selectors + [s]), LoadAll(c, query, selectors), LoadSelector(c, query, s);
            && (all.Success? <==> first.Success? && last.Success?)
            && (all.Success? ==> all.value == first.value + last.value)
    decreases selectors
  {
    if selectors == [] {
      assert LoadAll(c, query, ([s])[1..]) == Success([]);
      assert [] + [s] == [s];
    } else {
      assert (selectors + [s])[0] == selectors[0] && (selectors + [s])[1..] == selectors[1..] + [s];
      LoadAllAppend(c, query, selectors[1..], s);
    }
  }

  /** Once a prefix fails to load, so does the whole list. */
  lemma {:induction false} LoadAllPrefix(c: Context, query: Answering, selectors: seq<Selector>, i: nat)
    requires i <= |selectors| && LoadAll(c, query, selectors).Success?
    ensures LoadAll(c, query, selectors[..i]).Success?
    decreases |selectors| - i
  {
    if i == |selectors| {
      assert selectors[..i] == selectors;
    } else {
      LoadAllPrefix(c, query, selectors, i + 1);
      assert selectors[..i + 1] == selectors[..i] + [selectors[i]];
      LoadAllAppend(c, query, selectors[..i], selectors[i]);
    }
  }

  /** Loads the selectors one after the other; records the page ETags of each key-filter
      selector under its comparable form. */
  method GetSettings(c: Context, server: Server, selectors: seq<Selector>)
    returns (settings: Result<seq<Setting>, Error>, etags: map<ComparableSelector, seq<ETag>>)
    ensures SameOutcome(settings, LoadAll(c, Answers(server), selectors))
    ensures settings.Success? ==> RecordedFor(etags, server, selectors)
  {
    ghost var query := Answers(server);
    var loaded: seq<Setting> := [];
    etags := map[];
    var i := 0;
    while i < |selectors|
      invariant 0 <= i <= |selectors|
      invariant LoadAll(c, query, selectors[..i]) == Success(loaded)
      invariant RecordedFor(etags, server, selectors[..i])
    {
      var filter := selectors[i];
      assert selectors[..i + 1] == selectors[..i] + [filter];
      LoadAllAppend(c, query, selectors[..i], filter);
      RecordedOneMore(etags, server, selectors[..i], filter);
      var next, latestEtags := GetSelector(c, server, filter);
      if next.Failure? {
        if LoadAll(c, query, selectors).Success? {
          LoadAllPrefix(c, query, selectors, i + 1);
        }
        return next, etags;
      }
      if filter.keyFilter.Some? {
        etags := etags[Comparable(filter) := latestEtags];
      }
      loaded := loaded + next.value;
      i := i + 1;
    }
    assert selectors[..i] == selectors;
    settings := Success(loaded);
  }

  // ---------------------------------------------------------------- what is asked and loaded

  ghost function Joined<T>(lists: seq<seq<T>>): seq<T> {
    if lists == [] then [] else lists[0] + Joined(lists[1..])
  }

  /** The query with the key filter, the label and the tags of a selector. */
  ghost function Asked(s: Selector, labelFilter: Option<string>): Query
    requires s.keyFilter.Some?
  {
    Query(s.keyFilter.value, labelFilter, multiset(s.tagFilters))
  }

  /** The lists of settings on the pages; a page without one counts as empty. */
  ghost function Lists(pages: seq<Page>): seq<seq<Setting>> {
    seq(|pages|, i requires 0 <= i < |pages| =>
      match pages[i].settings case Some(settings) => settings case None => [])
  }

  /** A selector can be loaded: all pages that it asks for can be read, or its snapshot. */
  ghost predicate CanLoad(c: Context, server: Server, s: Selector) {
    if s.keyFilter.Some? then Readable(server, Asked(s, s.labelFilter))
    else s.snapshotName.Some? && c.snapshots(s.snapshotName.value).Success?
  }

  ghost function SettingsOf(c: Context, server: Server, s: Selector): seq<Setting>
    requires CanLoad(c, server, s)
  {
    if s.keyFilter.Some? then Joined(Lists(server.pages(Asked(s, s.labelFilter))))
    else c.snapshots(s.snapshotName.value).value
  }

  /** The settings of each selector. */
  ghost function EachOf(c: Context, server: Server, selectors: seq<Selector>): seq<seq<Setting>>
    requires forall s :: s in selectors ==> CanLoad(c, server, s)
  {
    seq(|selectors|, i requires 0 <= i < |selectors| =>
      assert selectors[i] in selectors;
      SettingsOf(c, server, selectors[i]))
  }

  lemma {:induction false} PagesInOrder(pages: seq<Page>)
    ensures SettingsOn(pages) == Joined(Lists(pages))
    decreases pages
  {
    if pages != [] {
      PagesInOrder(pages[1..]);
      assert Lists(pages)[1..] == Lists(pages[1..]);
    }
  }

  lemma OneLoads(c: Context, server: Server, s: Selector)
    ensures LoadSelector(c, Answers(server), s).Success? <==> CanLoad(c, server, s)
    ensures CanLoad(c, server, s) ==> LoadSelector(c, Answers(server), s).value == SettingsOf(c, server, s)
  {
    if s.keyFilter.Some? {
      ComparableRoundTrip(s);
      assert FetchQuery(FromComparable(Comparable(s))) == Asked(s, s.labelFilter);
      PagesInOrder(server.pages(Asked(s, s.labelFilter)));
    }
  }

  /** Loading asks for each selector's key filter, label and tags, or for its snapshot, and puts
      the settings on all pages of all selectors one after the other. */
  lemma {:induction false} LoadsInOrder(c: Context, server: Server, selectors: seq<Selector>)
    ensures var all := LoadAll(c, Answers(server), selectors);
            && (all.Success? <==> forall s :: s in selectors ==> CanLoad(c, server, s))
            && (all.Success? ==>
                  all.value == Joined(EachOf(c, server, selectors)))
    decreases selectors
  {
    hide LoadSelector, CanLoad, SettingsOf;
    if selectors != [] {
      OneLoads(c, server, selectors[0]);
      LoadsInOrder(c, server, selectors[1..]);
      assert selectors == [selectors[0]] + selectors[1..];
      if LoadAll(c, Answers(server), selectors).Success? {
        assert EachOf(c, server, selectors)[1..] == EachOf(c, server, selectors[1..]);
      }
    }
  }

  /** Checking asks the same, but for the null label where there is none, and finds a change
      exactly when the ETags of the pages are not the recorded ones. */
  lemma ChecksWhatIsAsked(server: Server, s: Selector, recorded: seq<ETag>)
    ensures HasChanged(server, Comparable(s), recorded) <==>
              && s.keyFilter.Some?
              && ETags(server.pages(Asked(s, if s.labelFilter.Some? then s.labelFilter else Some("\0")))) != recorded
  {
    ComparableRoundTrip(s);
  }

  // ---------------------------------------------------------------- exactness

  /** The pages of some selector's query differ between two states of the store. */
  ghost predicate Edited(before: Server, after: Server, selectors: seq<Selector>) {
    exists s :: s in selectors && s.keyFilter.Some?
             && ETags(before.pages(FetchQuery(s))) != ETags(after.pages(FetchQuery(s)))
  }

  /** Recorded by loading at one time and checked at another, the ETags show a change exactly
      when some page of a selector has changed in between, provided that every selector has
      a label and every page loaded came with a list of settings. */
  lemma CheckSeesExactlyTheEdits(etags: map<ComparableSelector, seq<ETag>>, before: Server, after: Server,
                                 selectors: seq<Selector>)
    requires RecordedFor(etags, before, selectors)
    requires forall s ::
               s in selectors && s.keyFilter.Some? ==> s.labelFilter.Some? && FullPages(before.pages(FetchQuery(s)))
    ensures (exists c :: c in etags && HasChanged(after, c, etags[c])) <==> Edited(before, after, selectors)
  {
    forall s | s in selectors && s.keyFilter.Some?
      ensures HasChanged(after, Comparable(s), etags[Comparable(s)])
         <==> ETags(before.pages(FetchQuery(s))) != ETags(after.pages(FetchQuery(s)))
    {
      CheckAsksFetchedQuery(s);
      RecordsAllExactly(before.pages(FetchQuery(s)));
    }
    if c :| c in etags && HasChanged(after, c, etags[c]) {
      var s :| s in selectors && s.keyFilter.Some? && Comparable(s) == c;
    }
    if Edited(before, after, selectors) {
      var s :| s in selectors && s.keyFilter.Some?
            && ETags(before.pages(FetchQuery(s))) != ETags(after.pages(FetchQuery(s)));
      assert Comparable(s) in etags;
    }
  }

  /** A page that came without a list of settings is not recorded, so the next check of the
      same store reports a change: an unchanged store reads as unchanged exactly when every
      page loaded came with one. */
  lemma UnchangedStoreReadsUnchanged(etags: map<ComparableSelector, seq<ETag>>, server: Server,
                                     selectors: seq<Selector>)
    requires RecordedFor(etags, server, selectors)
    requires forall s :: s in selectors && s.keyFilter.Some? ==> s.labelFilter.Some?
    ensures (forall c :: c in etags ==> !HasChanged(server, c, etags[c]))
       <==> forall s :: s in selectors && s.keyFilter.Some? ==> FullPages(server.pages(FetchQuery(s)))
  {
    forall s | s in selectors && s.keyFilter.Some?
      ensures HasChanged(server, Comparable(s), etags[Comparable(s)]) <==> !FullPages(server.pages(FetchQuery(s)))
    {
      CheckAsksFetchedQuery(s);
      RecordsAllExactly(server.pages(FetchQuery(s)));
    }
    if forall s :: s in selectors && s.keyFilter.Some? ==> FullPages(server.pages(FetchQuery(s))) {
      forall c | c in etags
        ensures !HasChanged(server, c, etags[c])
      {
        var s :| s in selectors && s.keyFilter.Some? && Comparable(s) == c;
      }
    }
    if forall c :: c in etags ==> !HasChanged(server, c, etags[c]) {
      forall s | s in selectors && s.keyFilter.Some?
        ensures FullPages(server.pages(FetchQuery(s)))
      {
        assert !HasChanged(server, Comparable(s), etags[Comparable(s)]);
      }
    }
  }

  /** The default selector has no label, so its check asks another query than its load: here
      an edit under another label goes unseen. */
  lemma DefaultSelectorCanMissAnEdit() returns (before: Server, after: Server, etags: map<ComparableSelector,
                                     seq<ETag>>)
    ensures RecordedFor(etags, before, [WILDCARD]) && Edited(before, after, [WILDCARD])
    ensures forall c :: c in etags ==> !HasChanged(after, c, etags[c])
  {
    var wildcard := FetchQuery(WILDCARD);
    var page, edited := Page(Some([]), "1"), Page(Some([]), "2");
    before := Server(_ => [page], (_, _) => false);
    after := Server(q => if q == wildcard then [edited] else [page], (_, _) => false);
    etags := map[Comparable(WILDCARD) := ["1"]];
    CheckAsksFetchedQuery(WILDCARD);
    assert [page][1..] == [];
    assert RecordedETags([page]) == ["1"];
    assert ETags(before.pages(wildcard))[0] != ETags(after.pages(wildcard))[0];
    assert WILDCARD in [WILDCARD];
    assert ETags([page]) == ["1"];
  }

  // ---------------------------------------------------------------- snapshots

  /** Every selector loads the same at two times. */
  ghost predicate LoadsAlike(c: Context, c': Context, before: Server, after: Server, selectors: seq<Selector>) {
    forall s :: s in selectors ==> LoadSelector(c, Answers(before), s) == LoadSelector(c', Answers(after), s)
  }

  /** Every selected snapshot is the same; one that does not exist is read as empty. */
  ghost predicate SnapshotsAlike(c: Context, c': Context, selectors: seq<Selector>) {
    forall s :: s in selectors && s.keyFilter.None? && s.snapshotName.Some? ==>
      c.snapshots(s.snapshotName.value) == c'.snapshots(s.snapshotName.value)
  }

  /** A query can be read at both times, and its pages are the same if their ETags are. */
  ghost predicate ETagsTell(before: Server, after: Server, query: Query) {
    && Readable(before, query) && Readable(after, query)
    && (ETags(before.pages(query)) == ETags(after.pages(query)) ==> before.pages(query) == after.pages(query))
  }

  /** The check looks at key filters only: when it finds no change, everything would load as
      before exactly when no selected snapshot has been made or replaced. */
  lemma UnchangedLoadsAlikeExactly(etags: map<ComparableSelector, seq<ETag>>, c: Context, c': Context, before: Server,
                                   after: Server, selectors: seq<Selector>)
    requires RecordedFor(etags, before, selectors)
    requires forall s :: s in selectors && s.keyFilter.Some? ==>
               s.labelFilter.Some? && FullPages(before.pages(FetchQuery(s))) && ETagsTell(before, after, FetchQuery(s))
    requires forall k :: k in etags ==> !HasChanged(after, k, etags[k])
    ensures LoadsAlike(c, c', before, after, selectors) <==> SnapshotsAlike(c, c', selectors)
  {
    hide RecordedETags, SettingsOn, HasChanged, FullPages;
    CheckSeesExactlyTheEdits(etags, before, after, selectors);
    forall s | s in selectors
      ensures LoadSelector(c, Answers(before), s) == LoadSelector(c', Answers(after), s)
              <==> || s.keyFilter.Some? || s.snapshotName.None?
                   || c.snapshots(s.snapshotName.value) == c'.snapshots(s.snapshotName.value)
    {
      if s.keyFilter.Some? {
        ComparableRoundTrip(s);
        assert FetchQuery(FromComparable(Comparable(s))) == FetchQuery(s);
      }
    }
  }

  /** A snapshot that is missing at the load is read as empty, and that it is made later is seen
      by no check of the page ETags. */
  lemma CreatedSnapshotIsMissed(etags: map<ComparableSelector, seq<ETag>>, c: Context, c': Context, server: Server,
                                name: string, setting: Setting)
    requires RecordedFor(etags, server, [Selector(None, None, Some(name), [])])
    requires c.snapshots(name) == Success([]) && c'.snapshots(name) == Success([setting])
    ensures forall k :: k in etags ==> !HasChanged(server, k, etags[k])
    ensures var selectors := [Selector(None, None, Some(name), [])];
            && LoadAll(c, Answers(server), selectors) == Success([])
            && LoadAll(c', Answers(server), selectors) == Success([setting])
  {
    var selector := Selector(None, None, Some(name), []);
    assert [selector][0] == selector && [selector][1..] == [];
    var none: seq<Setting>, made := [], [setting];
    assert none + [] == none && made + [] == made;
    assert LoadAll(c, Answers(server), []) == LoadAll(c', Answers(server), []) == Success([]);
    assert forall s :: s in [selector] ==> s == selector;
  }

  // ---------------------------------------------------------------- the key-value part of a load

  /** Normalize, deduplicate, load and classify. The outcome is that of the selectors as the
      user listed them, normalized; the ETags are those of what was loaded. */
  method CreateKeyValueSettings(c: Context, server: Server, selectors: seq<Selector>)
    returns (raw: Option<Raw>, etags: map<ComparableSelector, seq<ETag>>, normalized: seq<Selector>)
    ensures |normalized| == |selectors| && forall i ::
              0 <= i < |selectors| ==> normalized[i] == Normalized(selectors[i])
    ensures var meant := CreateRaw(c, Answers(server), if selectors == [] then [WILDCARD] else normalized);
            if meant.Success? then raw == Some(meant.value) else raw == None
    ensures raw.Some? ==> RecordedFor(etags, server, Deduplicated(normalized))
  {
    normalized := NormalizeFilter(selectors);
    var filters := DeduplicateFilters(normalized);
    if normalized != [] {
      DeduplicationPreservesMeaning(c, Answers(server), normalized);
    }
    var settings;
    settings, etags := GetSettings(c, server, filters);
    if settings.Failure? {
      return None, etags, normalized;
    }
    var rawSettings := new RawSettings(c.secretTarget);
    var ok := rawSettings.ProcessSettings(c, settings.value, true);
    if !ok {
      return None, etags, normalized;
    }
    raw := Some(Raw(rawSettings.KeyValueSettings, rawSettings.IsJsonContentTypeMap, rawSettings.K8sSecrets));
  }
}

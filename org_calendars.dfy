/**
 * `printCalendars`: the whole org document. After a fixed header, every
 * configured calendar that the account lists gets a heading and then its
 * events: all pages of the event listing, stably sorted by event id, with the
 * events whose summary contains a title filter left out, each rendered by
 * `printOrg`.
 */
module OrgCalendars {
  import opened Wrappers
  import opened GoStrings
  import opened StableSort
  import opened CalendarApi
  import opened TextLines
  import opened OrgEntry

  /** One configured calendar: its org tag and its calendar id. */
  datatype CalendarMap = CalendarMap(tag: string, calendar: string)

  /** The configuration `printCalendars` receives: the calendars in order and the title filters. */
  datatype CalendarConfig = CalendarConfig(calendars: seq<CalendarMap>, titleFilters: seq<string>)

  /**
   * The calendar service as answers: the calendar listing (None when the
   * listing request fails) and, for each calendar id, the answers to its
   * successive event-listing requests (None for a request that fails).
   */
  datatype Service = Service(listing: Option<seq<CalendarListEntry>>, responses: string -> seq<Option<Page>>)

  /** `approvedCals`: the configured calendar ids, in configuration order. */
  function Approved(cals: seq<CalendarMap>): (r: seq<string>)
    ensures |r| == |cals|
    ensures forall i :: 0 <= i < |cals| ==> r[i] == cals[i].calendar
    decreases |cals|
  {
    if cals == [] then [] else Approved(cals[..|cals| - 1]) + [cals[|cals| - 1].calendar]
  }

  /** `calendarMap`: calendar id to tag; a later entry for the same id overwrites an earlier one. */
  function Tags(cals: seq<CalendarMap>): (r: map<string, string>)
    ensures forall i :: 0 <= i < |cals| ==> cals[i].calendar in r
    ensures forall id :: id in r ==> exists i :: 0 <= i < |cals| && cals[i].calendar == id
    decreases |cals|
  {
    if cals == [] then map[]
    else
      var last := cals[|cals| - 1];
      Tags(cals[..|cals| - 1])[last.calendar := last.tag]
  }

  /** `receivedCals`: listed calendar id to its entry; a later entry for the same id overwrites an earlier one. */
  function Received(items: seq<CalendarListEntry>): (r: map<string, CalendarListEntry>)
    ensures forall i :: 0 <= i < |items| ==> items[i].id in r
    ensures forall id :: id in r ==> r[id].id == id
    decreases |items|
  {
    if items == [] then map[]
    else
      var last := items[|items| - 1];
      Received(items[..|items| - 1])[last.id := last]
  }

  /** The two header lines that open the document: Emacs reloads the file when it changes, under category "cal". */
  const ReloadLine := "# -*- eval: (auto-revert-mode 1); -*-\n"
  const CategoryLine := "#+category: cal\n"

  function Header(): string {
    ReloadLine + CategoryLine
  }

  /** The level-one heading of a calendar, tagged with its configured tag, with its id and description. */
  function CalendarHeading(c: CalendarListEntry, tag: string): string {
    "* " + c.summary + " :CALENDAR:" + tag + ":\n"
    + ":PROPERTIES:\n"
    + ":ID:         " + c.id + "\n"
    + ":END:\n"
    + "\n  " + c.description + "\n\n"
  }

  function Prepend(xs: seq<Event>, rest: Option<seq<Event>>): Option<seq<Event>> {
    if rest.None? then None else Some(xs + rest.value)
  }

  /**
   * The events of one calendar: the items of the answers up to and including
   * the first one without a next-page token. A failed request, or running out
   * of answers before that, is fatal.
   */
  function Collect(pages: seq<Option<Page>>): Option<seq<Event>>
    decreases |pages|
  {
    if pages == [] || pages[0].None? then None
    else if pages[0].value.nextPageToken == "" then Some(pages[0].value.items)
    else Prepend(pages[0].value.items, Collect(pages[1..]))
  }

  /** The sort key of the event list. */
  function EventId(e: Event): string {
    e.id
  }

  /** The summary contains one of the title filters. */
  predicate Filtered(summary: string, filters: seq<string>) {
    exists i :: 0 <= i < |filters| && Contains(summary, filters[i])
  }

  /** What the `itemloop` writes: each event not filtered out, as `printOrg` renders it. */
  function EventsText(events: seq<Event>, filters: seq<string>): string
    decreases |events|
  {
    if events == [] then ""
    else
      var last := events[|events| - 1];
      EventsText(events[..|events| - 1], filters) + (if Filtered(last.summary, filters) then "" else Rendered(last))
  }

  /**
   * One approved calendar's part of the document: nothing when the listing
   * does not have it, otherwise its heading and its events. None when
   * fetching its events is fatal.
   */
  function Block(name: string, tags: map<string, string>, received: map<string, CalendarListEntry>,
                 filters: seq<string>, responses: string -> seq<Option<Page>>): Option<string>
    requires name in tags
  {
    if name !in received then Some("")
    else
      var c := received[name];
      var events := Collect(responses(c.id));
      if events.None? then None
      else Some(CalendarHeading(c, tags[name]) + EventsText(SortBy(events.value, EventId), filters))
  }

  /** The blocks of the approved calendars, one after the other; None when one of them is fatal. */
  function Blocks(names: seq<string>, tags: map<string, string>, received: map<string, CalendarListEntry>,
                  filters: seq<string>, responses: string -> seq<Option<Page>>): Option<string>
    requires forall i :: 0 <= i < |names| ==> names[i] in tags
    decreases |names|
  {
    if names == [] then Some("")
    else
      var front := Blocks(names[..|names| - 1], tags, received, filters, responses);
      var last := Block(names[|names| - 1], tags, received, filters, responses);
      if front.None? || last.None? then None else Some(front.value + last.value)
  }

  /** The document `printCalendars` returns, or None when it stops with a fatal error. */
  function Document(cfg: CalendarConfig, svc: Service): Option<string> {
    if svc.listing.None? then None
    else
      var names := Approved(cfg.calendars);
      var blocks := Blocks(names, Tags(cfg.calendars), Received(svc.listing.value), cfg.titleFilters, svc.responses);
      if blocks.None? then None else Some(Header() + blocks.value)
  }

  // The loops of `printCalendars`

  /** The pagination loop: requests pages until an answer has no next-page token. */
  method FetchEvents(pages: seq<Option<Page>>) returns (eventList: Option<seq<Event>>)
    ensures eventList == Collect(pages)
  {
    var events: seq<Event> := [];
    var notdone := true;
    var k := 0;
    assert pages[0..] == pages;
    assert Prepend([], Collect(pages)) == Collect(pages) by {
      if Collect(pages).Some? {
        assert [] + Collect(pages).value == Collect(pages).value;
      }
    }
    while notdone
      invariant 0 <= k <= |pages|
      invariant notdone ==> Collect(pages) == Prepend(events, Collect(pages[k..]))
      invariant !notdone ==> Collect(pages) == Some(events)
      decreases |pages| - k
    {
      if k == |pages| {
        return None;
      }
      var answer := pages[k];
      if answer.None? {
        return None;
      }
      var page := answer.value;
      assert pages[k..][1..] == pages[k + 1..];
      notdone := page.nextPageToken != "";
      PrependAssociative(events, page.items, Collect(pages[k + 1..]));
      events := events + page.items;
      k := k + 1;
    }
    eventList := Some(events);
  }

  /** Prepending two lists of items one after the other is prepending their concatenation. */
  lemma PrependAssociative(xs: seq<Event>, ys: seq<Event>, rest: Option<seq<Event>>)
    ensures Prepend(xs, Prepend(ys, rest)) == Prepend(xs + ys, rest)
  {
    if rest.Some? {
      assert xs + (ys + rest.value) == (xs + ys) + rest.value;
    }
  }

  /**
   * The `itemloop`: each event in turn is skipped when its summary contains a
   * title filter (the `continue itemloop` out of the filter loop) and is
   * otherwise handed to `printOrg`.
   */
  method WriteEvents(events: seq<Event>, filters: seq<string>, tag: string, out: Builder)
    modifies out
    ensures out.text == old(out.text) + EventsText(events, filters)
  {
    ghost var start := out.text;
    for k := 0 to |events|
      invariant out.text == start + EventsText(events[..k], filters)
    {
      var i := events[k];
      EventsTextStep(events, k, filters);
      var skip := HitsTitleFilter(i.summary, filters);
      if skip {
        continue;
      }
      PrintOrg(i, tag, out);
      Associative(start, EventsText(events[..k], filters), Rendered(i));
    }
    assert events[..|events|] == events;
  }

  /** The filter loop inside the `itemloop`: does the summary contain one of the title filters? */
  method HitsTitleFilter(summary: string, filters: seq<string>) returns (hit: bool)
    ensures hit <==> Filtered(summary, filters)
  {
    for j := 0 to |filters|
      invariant forall f :: 0 <= f < j ==> !Contains(summary, filters[f])
    {
      if Contains(summary, filters[j]) {
        return true;
      }
    }
    return false;
  }

  /** One more turn of the `itemloop`: the event's rendering, or nothing when it is filtered out. */
  lemma EventsTextStep(events: seq<Event>, k: nat, filters: seq<string>)
    requires k < |events|
    ensures Filtered(events[k].summary, filters) ==> EventsText(events[..k + 1], filters) == EventsText(events[..k], filters)
    ensures !Filtered(events[k].summary, filters) ==>
      EventsText(events[..k + 1], filters) == EventsText(events[..k], filters) + Rendered(events[k])
  {
    assert events[..k + 1][..k] == events[..k];
    assert EventsText(events[..k], filters) + "" == EventsText(events[..k], filters);
  }

  /** The first loop of `printCalendars`: the approved calendar ids in order, and their tags. */
  method ReadConfig(cals: seq<CalendarMap>) returns (approvedCals: seq<string>, calendarMap: map<string, string>)
    ensures approvedCals == Approved(cals)
    ensures calendarMap == Tags(cals)
  {
    calendarMap := map[];
    approvedCals := [];
    for k := 0 to |cals|
      invariant approvedCals == Approved(cals[..k])
      invariant calendarMap == Tags(cals[..k])
    {
      ConfigStep(cals, k);
      approvedCals := approvedCals + [cals[k].calendar];
      calendarMap := calendarMap[cals[k].calendar := cals[k].tag];
    }
    assert cals[..|cals|] == cals;
  }

  /** The listing loop of `printCalendars`: the listed calendars by id. */
  method IndexListing(calendars: seq<CalendarListEntry>) returns (receivedCals: map<string, CalendarListEntry>)
    ensures receivedCals == Received(calendars)
  {
    receivedCals := map[];
    for k := 0 to |calendars|
      invariant receivedCals == Received(calendars[..k])
    {
      ListingStep(calendars, k);
      receivedCals := receivedCals[calendars[k].id := calendars[k]];
    }
    assert calendars[..|calendars|] == calendars;
  }

  /** One more turn of the configuration loop. */
  lemma ConfigStep(cals: seq<CalendarMap>, k: nat)
    requires k < |cals|
    ensures Approved(cals[..k + 1]) == Approved(cals[..k]) + [cals[k].calendar]
    ensures Tags(cals[..k + 1]) == Tags(cals[..k])[cals[k].calendar := cals[k].tag]
  {
    assert cals[..k + 1][..k] == cals[..k];
  }

  /** One more turn of the listing loop. */
  lemma ListingStep(items: seq<CalendarListEntry>, k: nat)
    requires k < |items|
    ensures Received(items[..k + 1]) == Received(items[..k])[items[k].id := items[k]]
  {
    assert items[..k + 1][..k] == items[..k];
  }

  /**
   * One turn of the calendar loop of `printCalendars`: for a listed calendar,
   * its heading, then its pages of events, sorted by id, through the
   * `itemloop`. `ok` is false when fetching is fatal.
   */
  method WriteCalendar(approvedCal: string, calendarMap: map<string, string>,
                       receivedCals: map<string, CalendarListEntry>, titleFilters: seq<string>,
                       responses: string -> seq<Option<Page>>, out: Builder)
    returns (ok: bool)
    requires approvedCal in calendarMap
    modifies out
    ensures ok <==> Block(approvedCal, calendarMap, receivedCals, titleFilters, responses).Some?
    ensures ok ==> out.text == old(out.text) + Block(approvedCal, calendarMap, receivedCals, titleFilters, responses).value
  {
    if approvedCal !in receivedCals {
      assert out.text == out.text + "";
      return true;
    }
    var c := receivedCals[approvedCal];
    ghost var before := out.text;
    WriteCalendarHeading(c, calendarMap[approvedCal], out);
    var eventList := FetchEvents(responses(c.id));
    if eventList.None? {
      return false;
    }
    var sorted := SortBy(eventList.value, EventId);
    WriteEvents(sorted, titleFilters, calendarMap[approvedCal], out);
    Associative(before, CalendarHeading(c, calendarMap[approvedCal]), EventsText(sorted, titleFilters));
    ok := true;
  }

  /** The calendar loop of `printCalendars`: the approved calendars' blocks in order; `ok` is false when one is fatal. */
  method WriteCalendars(approvedCals: seq<string>, calendarMap: map<string, string>,
                        receivedCals: map<string, CalendarListEntry>, titleFilters: seq<string>,
                        responses: string -> seq<Option<Page>>, out: Builder)
    returns (ok: bool)
    requires forall i :: 0 <= i < |approvedCals| ==> approvedCals[i] in calendarMap
    modifies out
    ensures ok <==> Blocks(approvedCals, calendarMap, receivedCals, titleFilters, responses).Some?
    ensures ok ==> out.text == old(out.text) + Blocks(approvedCals, calendarMap, receivedCals, titleFilters, responses).value
  {
    ghost var start := out.text;
    ghost var done := "";
    for k := 0 to |approvedCals|
      invariant Blocks(approvedCals[..k], calendarMap, receivedCals, titleFilters, responses) == Some(done)
      invariant out.text == start + done
    {
      BlocksStep(approvedCals, k, calendarMap, receivedCals, titleFilters, responses);
      ghost var block := Block(approvedCals[k], calendarMap, receivedCals, titleFilters, responses);
      ok := WriteCalendar(approvedCals[k], calendarMap, receivedCals, titleFilters, responses, out);
      if !ok {
        BlocksStayFatal(approvedCals, k + 1, calendarMap, receivedCals, titleFilters, responses);
        return false;
      }
      Associative(start, done, block.value);
      done := done + block.value;
    }
    assert approvedCals[..|approvedCals|] == approvedCals;
    ok := true;
  }

  /**
   * `printCalendars`: header, then each approved calendar the listing has,
   * with its heading and its filtered, sorted events. None when a request
   * fails (the program stops with a fatal error and writes nothing).
   */
  method PrintCalendars(cfg: CalendarConfig, svc: Service) returns (doc: Option<string>)
    ensures doc == Document(cfg, svc)
  {
    var approvedCals, calendarMap := ReadConfig(cfg.calendars);
    if svc.listing.None? {
      return None;
    }
    var receivedCals := IndexListing(svc.listing.value);
    ApprovedAreTagged(cfg.calendars);
    var strBuilder := new Builder();
    strBuilder.WriteString(ReloadLine);
    strBuilder.WriteString(CategoryLine);
    EmptyNeutral(ReloadLine);
    var ok := WriteCalendars(approvedCals, calendarMap, receivedCals, cfg.titleFilters, svc.responses, strBuilder);
    if !ok {
      return None;
    }
    doc := Some(strBuilder.text);
  }

  /** The five writes of a calendar's heading. */
  method WriteCalendarHeading(c: CalendarListEntry, tag: string, out: Builder)
    modifies out
    ensures out.text == old(out.text) + CalendarHeading(c, tag)
  {
    ghost var start := out.text;
    var line1 := "* " + c.summary + " :CALENDAR:" + tag + ":\n";
    var line3 := ":ID:         " + c.id + "\n";
    var line5 := "\n  " + c.description + "\n\n";
    out.WriteString(line1);
    out.WriteString(":PROPERTIES:\n");
    Associative(start, line1, ":PROPERTIES:\n");
    out.WriteString(line3);
    Associative(start, line1 + ":PROPERTIES:\n", line3);
    out.WriteString(":END:\n");
    Associative(start, line1 + ":PROPERTIES:\n" + line3, ":END:\n");
    out.WriteString(line5);
    Associative(start, line1 + ":PROPERTIES:\n" + line3 + ":END:\n", line5);
    assert CalendarHeading(c, tag) == line1 + ":PROPERTIES:\n" + line3 + ":END:\n" + line5;
  }

  /** Every approved calendar has a tag, so `calendarMap[approvedCal]` is always defined. */
  lemma ApprovedAreTagged(cals: seq<CalendarMap>)
    ensures forall i :: 0 <= i < |Approved(cals)| ==> Approved(cals)[i] in Tags(cals)
  {
  }

  /** One more turn of the calendar loop: its block follows, or the document is lost. */
  lemma BlocksStep(names: seq<string>, k: nat, tags: map<string, string>,
                   received: map<string, CalendarListEntry>, filters: seq<string>,
                   responses: string -> seq<Option<Page>>)
    requires k < |names|
    requires forall i :: 0 <= i < |names| ==> names[i] in tags
    ensures var front := Blocks(names[..k], tags, received, filters, responses);
            var last := Block(names[k], tags, received, filters, responses);
            Blocks(names[..k + 1], tags, received, filters, responses)
            == if front.None? || last.None? then None else Some(front.value + last.value)
  {
    assert names[..k + 1][..k] == names[..k];
  }

  /** Once a calendar's block is fatal, so is the whole document. */
  lemma {:induction false} BlocksStayFatal(names: seq<string>, k: nat, tags: map<string, string>,
                                          received: map<string, CalendarListEntry>, filters: seq<string>,
                                          responses: string -> seq<Option<Page>>)
    requires 0 < k <= |names|
    requires forall i :: 0 <= i < |names| ==> names[i] in tags
    requires Block(names[k - 1], tags, received, filters, responses).None?
    ensures Blocks(names, tags, received, filters, responses).None?
    decreases |names|
  {
    if k < |names| {
      assert names[..|names| - 1][k - 1] == names[k - 1];
      BlocksStayFatal(names[..|names| - 1], k, tags, received, filters, responses);
    }
  }

  // Properties of the document

  /** A later configuration entry for the same calendar id decides its tag. */
  lemma {:induction false} TagsLastWins(cals: seq<CalendarMap>, i: nat)
    requires i < |cals|
    requires forall j :: i < j < |cals| ==> cals[j].calendar != cals[i].calendar
    ensures Tags(cals)[cals[i].calendar] == cals[i].tag
    decreases |cals|
  {
    if i < |cals| - 1 {
      var front := cals[..|cals| - 1];
      assert front[i] == cals[i];
      TagsLastWins(front, i);
    }
  }

  /** A later listing entry with the same id replaces an earlier one. */
  lemma {:induction false} ReceivedLastWins(items: seq<CalendarListEntry>, i: nat)
    requires i < |items|
    requires forall j :: i < j < |items| ==> items[j].id != items[i].id
    ensures Received(items)[items[i].id] == items[i]
    decreases |items|
  {
    if i < |items| - 1 {
      var front := items[..|items| - 1];
      assert front[i] == items[i];
      ReceivedLastWins(front, i);
    }
  }

  /** Answers `0..n` are all there, `n` is the first without a next-page token. */
  ghost predicate LastPageAt(pages: seq<Option<Page>>, n: nat) {
    n < |pages|
    && (forall i :: 0 <= i <= n ==> pages[i].Some?)
    && (forall i :: 0 <= i < n ==> pages[i].value.nextPageToken != "")
    && pages[n].value.nextPageToken == ""
  }

  /** The items of the answers, in order. */
  function AllItems(pages: seq<Option<Page>>): seq<Event>
    decreases |pages|
  {
    if pages == [] then []
    else (if pages[0].Some? then pages[0].value.items else []) + AllItems(pages[1..])
  }

  /** Pagination stops at the first answer without a token, and the events are all items up to it. */
  lemma {:induction false} CollectAtLastPage(pages: seq<Option<Page>>, n: nat)
    requires LastPageAt(pages, n)
    ensures Collect(pages) == Some(AllItems(pages[..n + 1]))
    decreases n
  {
    var p := pages[..n + 1];
    assert p[0] == pages[0];
    if n == 0 {
      assert p[1..] == [];
      assert AllItems(p) == pages[0].value.items + [];
      assert pages[0].value.items + [] == pages[0].value.items;
    } else {
      var rest := pages[1..];
      assert LastPageAt(rest, n - 1) by {
        forall i | 0 <= i <= n - 1
          ensures rest[i].Some?
        {
          assert rest[i] == pages[i + 1];
        }
        forall i | 0 <= i < n - 1
          ensures rest[i].value.nextPageToken != ""
        {
          assert rest[i] == pages[i + 1];
        }
      }
      CollectAtLastPage(rest, n - 1);
      assert p[1..] == rest[..n];
    }
  }

  /** Pagination succeeds only when some answer is the last page. */
  lemma {:induction false} CollectFindsLastPage(pages: seq<Option<Page>>)
    requires Collect(pages).Some?
    ensures exists n :: LastPageAt(pages, n)
    decreases |pages|
  {
    if pages[0].value.nextPageToken == "" {
      assert LastPageAt(pages, 0);
    } else {
      var rest := pages[1..];
      CollectFindsLastPage(rest);
      var m: nat :| LastPageAt(rest, m);
      assert pages[m + 1] == rest[m];
      assert forall i :: 0 < i <= m + 1 ==> pages[i] == rest[i - 1];
      assert LastPageAt(pages, m + 1);
    }
  }

  /** The events the `itemloop` hands to `printOrg`, in order. */
  function Retained(events: seq<Event>, filters: seq<string>): seq<Event>
    decreases |events|
  {
    if events == [] then []
    else
      var last := events[|events| - 1];
      Retained(events[..|events| - 1], filters) + (if Filtered(last.summary, filters) then [] else [last])
  }

  /** The `itemloop` writes the rendering of each retained event, one after the other. */
  lemma {:induction false} EventsTextIsRetained(events: seq<Event>, filters: seq<string>)
    ensures EventsText(events, filters) == Concat(Retained(events, filters), Rendered)
    decreases |events|
  {
    if events != [] {
      var front := events[..|events| - 1];
      var last := events[|events| - 1];
      var r := Retained(front, filters);
      EventsTextIsRetained(front, filters);
      if Filtered(last.summary, filters) {
        assert r + [] == r;
        EmptyNeutral(Concat(r, Rendered));
      } else {
        ConcatSnoc(r, last, Rendered);
      }
    }
  }

  /** An event reaches `printOrg` exactly when it was fetched and its summary contains no title filter. */
  lemma {:induction false} RetainedMembers(events: seq<Event>, filters: seq<string>, e: Event)
    ensures e in Retained(events, filters) <==> e in events && !Filtered(e.summary, filters)
    decreases |events|
  {
    if events != [] {
      var front := events[..|events| - 1];
      assert events == front + [events[|events| - 1]];
      RetainedMembers(front, filters, e);
    }
  }

  /** Leaving events out keeps the others in id order. */
  lemma {:induction false} RetainedSorted(events: seq<Event>, filters: seq<string>)
    requires SortedBy(events, EventId)
    ensures SortedBy(Retained(events, filters), EventId)
    decreases |events|
  {
    if events != [] {
      var front := events[..|events| - 1];
      var last := events[|events| - 1];
      assert SortedBy(front, EventId);
      RetainedSorted(front, filters);
      var r := Retained(front, filters);
      if !Filtered(last.summary, filters) {
        forall x | x in r
          ensures !Less(EventId(last), EventId(x))
        {
          RetainedMembers(front, filters, x);
          var i :| 0 <= i < |front| && front[i] == x;
          assert events[i] == x;
        }
        var s := r + [last];
        forall i, j | 0 <= i < j < |s|
          ensures !Less(EventId(s[j]), EventId(s[i]))
        {
          if j == |r| {
            assert s[i] in r;
          } else {
            assert s[i] == r[i] && s[j] == r[j];
          }
        }
      }
    }
  }

  /**
   * The events of one calendar are written in stable id order, none of them
   * filtered out: sorting then filtering, as the code does, is the same as
   * stably sorting the events that pass the filters.
   */
  lemma CalendarEventsInOrder(events: seq<Event>, filters: seq<string>)
    ensures var written := Retained(SortBy(events, EventId), filters);
            SortedBy(written, EventId)
            && (forall e :: e in written <==> e in events && !Filtered(e.summary, filters))
            && written == SortBy(Retained(events, filters), EventId)
  {
    var sorted := SortBy(events, EventId);
    var written := Retained(sorted, filters);
    RetainedSorted(sorted, filters);
    forall k ensures WithKey(written, EventId, k) == WithKey(Retained(events, filters), EventId, k) {
      RetainedWithKey(sorted, filters, k);
      RetainedWithKey(events, filters, k);
    }
    SortByIsTheStableSort(Retained(events, filters), written, EventId);
    forall e
      ensures e in Retained(sorted, filters) <==> e in events && !Filtered(e.summary, filters)
    {
      RetainedMembers(sorted, filters, e);
      assert e in sorted <==> e in multiset(sorted);
      assert e in events <==> e in multiset(events);
    }
  }

  /** Leaving out filtered events and picking the events with one id can be done in either order. */
  lemma {:induction false} RetainedWithKey(events: seq<Event>, filters: seq<string>, k: string)
    ensures WithKey(Retained(events, filters), EventId, k) == Retained(WithKey(events, EventId, k), filters)
    decreases |events|
  {
    if events != [] {
      var front := events[..|events| - 1];
      var last := events[|events| - 1];
      RetainedWithKey(front, filters, k);
      var r := Retained(front, filters);
      var w := WithKey(front, EventId, k);
      if !Filtered(last.summary, filters) {
        WithKeySnoc(r, last, EventId);
      } else {
        assert r + [] == r;
      }
      if EventId(last) == k {
        RetainedSnoc(w, last, filters);
      } else {
        assert w + [] == w;
      }
    }
  }

  /** One more event is retained unless its summary contains a title filter. */
  lemma RetainedSnoc(s: seq<Event>, x: Event, filters: seq<string>)
    ensures Retained(s + [x], filters) == Retained(s, filters) + (if Filtered(x.summary, filters) then [] else [x])
  {
    assert (s + [x])[..|s|] == s;
  }

  /** An empty title filter is contained in every summary, so it hides every event. */
  lemma {:induction false} EmptyFilterHidesAll(events: seq<Event>, filters: seq<string>)
    requires "" in filters
    ensures EventsText(events, filters) == ""
    decreases |events|
  {
    if events != [] {
      var last := events[|events| - 1];
      var i :| 0 <= i < |filters| && filters[i] == "";
      assert HasPrefix(last.summary, filters[i]);
      assert Filtered(last.summary, filters);
      EmptyFilterHidesAll(events[..|events| - 1], filters);
    }
  }

  /** A configured calendar that the listing does not have adds nothing to the document. */
  lemma UnlistedCalendarContributesNothing(names: seq<string>, k: nat, tags: map<string, string>,
                                           listing: seq<CalendarListEntry>, filters: seq<string>,
                                           responses: string -> seq<Option<Page>>)
    requires k < |names|
    requires forall i :: 0 <= i < |names| ==> names[i] in tags
    requires forall j :: 0 <= j < |listing| ==> listing[j].id != names[k]
    ensures Blocks(names[..k + 1], tags, Received(listing), filters, responses)
         == Blocks(names[..k], tags, Received(listing), filters, responses)
  {
    ReceivedKeys(listing, names[k]);
    BlocksStep(names, k, tags, Received(listing), filters, responses);
    var front := Blocks(names[..k], tags, Received(listing), filters, responses);
    if front.Some? {
      assert front.value + "" == front.value;
    }
  }

  /** The listing's calendars are exactly the ids it lists. */
  lemma {:induction false} ReceivedKeys(items: seq<CalendarListEntry>, id: string)
    ensures id in Received(items) <==> exists j :: 0 <= j < |items| && items[j].id == id
    decreases |items|
  {
    if items != [] {
      var front := items[..|items| - 1];
      ReceivedKeys(front, id);
      if exists j :: 0 <= j < |front| && front[j].id == id {
        var j :| 0 <= j < |front| && front[j].id == id;
        assert items[j].id == id;
      }
      if exists j :: 0 <= j < |items| && items[j].id == id {
        var j :| 0 <= j < |items| && items[j].id == id;
        if j < |front| {
          assert front[j].id == id;
        }
      }
    }
  }

  /** The document is the blocks of the approved calendars, in configuration order, across any split of the list. */
  lemma {:induction false} BlocksAppend(xs: seq<string>, ys: seq<string>, tags: map<string, string>,
                                        received: map<string, CalendarListEntry>, filters: seq<string>,
                                        responses: string -> seq<Option<Page>>)
    requires forall i :: 0 <= i < |xs| ==> xs[i] in tags
    requires forall i :: 0 <= i < |ys| ==> ys[i] in tags
    ensures forall i :: 0 <= i < |xs + ys| ==> (xs + ys)[i] in tags
    ensures var a := Blocks(xs, tags, received, filters, responses);
            var b := Blocks(ys, tags, received, filters, responses);
            Blocks(xs + ys, tags, received, filters, responses)
            == if a.None? || b.None? then None else Some(a.value + b.value)
    decreases |ys|
  {
    assert forall i :: 0 <= i < |xs + ys| ==> (xs + ys)[i] in tags by {
      forall i | 0 <= i < |xs + ys|
        ensures (xs + ys)[i] in tags
      {
        if i < |xs| {
          assert (xs + ys)[i] == xs[i];
        } else {
          assert (xs + ys)[i] == ys[i - |xs|];
        }
      }
    }
    if ys == [] {
      assert xs + ys == xs;
      var a := Blocks(xs, tags, received, filters, responses);
      if a.Some? {
        assert a.value + "" == a.value;
      }
    } else {
      var ys' := ys[..|ys| - 1];
      var y := ys[|ys| - 1];
      assert (xs + ys)[..|xs + ys| - 1] == xs + ys';
      assert (xs + ys)[|xs + ys| - 1] == y;
      BlocksAppend(xs, ys', tags, received, filters, responses);
      var a := Blocks(xs, tags, received, filters, responses);
      var b' := Blocks(ys', tags, received, filters, responses);
      var c := Block(y, tags, received, filters, responses);
      if a.Some? && b'.Some? && c.Some? {
        Associative(a.value, b'.value, c.value);
      }
    }
  }

  /** Two events with ids "b" and "a" are written "a" first, whatever order the pages gave them in. */
  lemma SortsById(ea: Event, eb: Event)
    requires ea.id == "a" && eb.id == "b"
    ensures EventsText(SortBy([eb, ea], EventId), []) == Rendered(ea) + Rendered(eb)
  {
    assert Less("a", "b");
    assert [eb, ea][..1] == [eb];
    assert [eb][..0] == [];
    assert SortBy([eb], EventId) == InsertBy([], eb, EventId) == [eb];
    assert InsertBy([eb], ea, EventId) == InsertBy([], ea, EventId) + [eb] == [ea, eb];
    assert SortBy([eb, ea], EventId) == [ea, eb];
    assert [ea, eb][..1] == [ea];
    assert [ea][..0] == [];
    assert !Filtered(ea.summary, []) && !Filtered(eb.summary, []);
    assert EventsText([ea], []) == "" + Rendered(ea) == Rendered(ea);
  }

  /**
   * The configuration is not deduplicated: a calendar configured twice, under two
   * tags, is written twice, both times under the later tag.
   */
  lemma DuplicateCalendarWrittenTwice(id: string, first: string, second: string,
                                      received: map<string, CalendarListEntry>, filters: seq<string>,
                                      responses: string -> seq<Option<Page>>)
    ensures var cals := [CalendarMap(first, id), CalendarMap(second, id)];
            var b := Block(id, map[id := second], received, filters, responses);
            Approved(cals) == [id, id] && Tags(cals) == map[id := second]
            && Blocks(Approved(cals), Tags(cals), received, filters, responses)
               == if b.None? then None else Some(b.value + b.value)
  {
    var cals := [CalendarMap(first, id), CalendarMap(second, id)];
    assert cals[..1] == [CalendarMap(first, id)];
    assert Approved(cals) == [id, id];
    assert Tags(cals) == map[id := second];
    var tags := map[id := second];
    BlocksOne(id, tags, received, filters, responses);
    BlocksAppend([id], [id], tags, received, filters, responses);
    assert [id] + [id] == [id, id];
  }

  /** A single calendar's part of the document is its block. */
  lemma BlocksOne(name: string, tags: map<string, string>, received: map<string, CalendarListEntry>,
                  filters: seq<string>, responses: string -> seq<Option<Page>>)
    requires name in tags
    ensures var b := Block(name, tags, received, filters, responses);
            Blocks([name], tags, received, filters, responses) == if b.None? then None else Some(b.value)
  {
    assert [name][..0] == [];
    var b := Block(name, tags, received, filters, responses);
    if b.Some? {
      EmptyNeutral(b.value);
    }
  }

  /**
   * Events are not deduplicated either: an event that the pages hold twice keeps
   * both copies through the sort and is written twice, unless a title filter
   * hides it.
   */
  lemma DuplicateEventWrittenTwice(e: Event, filters: seq<string>)
    ensures SortBy([e, e], EventId) == [e, e]
    ensures EventsText([e, e], filters) == if Filtered(e.summary, filters) then "" else Rendered(e) + Rendered(e)
  {
    var r := SortBy([e, e], EventId);
    assert r[0] in multiset(r) && r[1] in multiset(r);
    assert [e, e][..1] == [e];
    assert [e][..0] == [];
    var x := if Filtered(e.summary, filters) then "" else Rendered(e);
    assert EventsText([e], filters) == "" + x;
    assert EventsText([e, e], filters) == EventsText([e], filters) + x;
    EmptyNeutral(x);
  }
}

/**
 * `printOrg`: one event as one org entry. The entry is a level-two heading, a
 * property drawer, the timestamp, the attendee list, the escaped description
 * and the attachment list; it is written to the output only when the user has
 * not declined the event.
 */
module OrgEntry {
  import opened Wrappers
  import opened GoStrings
  import opened StableSort
  import opened CalendarApi
  import opened OrgText
  import opened OrgDate
  import opened TextLines

  /** The heading's status note: only the two statuses the code tests, spelt as it spells them. */
  function StatusNote(status: string): (r: string)
    ensures r != "" <==> status == "tenative" || status == "cancelled"
    ensures r != "" ==> r == "(" + status + ") "
  {
    if status == "tenative" || status == "cancelled" then "(" + status + ") " else ""
  }

  /** `"** "`, the status note, then the summary (not escaped) or "busy" when it is empty. */
  function Heading(e: Event): string {
    "** " + StatusNote(e.status) + (if e.summary == "" then "busy" else e.summary) + "\n"
  }

  function MailLine(field: string, p: Person): string {
    field + " [[mailto:" + p.email + "][" + CleanString(p.displayName) + "]]\n"
  }

  /** The property drawer: the iCalendar UID, the web link, and creator and organizer when present. */
  function Properties(e: Event): string {
    ":PROPERTIES:\n"
    + ":ID:       " + e.iCalUID + "\n"
    + ":GCALLINK: " + e.htmlLink + "\n"
    + (if e.creator.Some? then MailLine(":CREATOR:", e.creator.value) else "")
    + (if e.organizer.Some? then MailLine(":ORGANIZER:", e.organizer.value) else "")
    + ":END:\n\n"
  }

  /**
   * `canonical_id`: the attendee's sort key, the first non-empty of the id, the
   * email and the cleaned display name, or "sadness". It is never empty.
   */
  function CanonicalId(a: Attendee): (r: string)
    ensures r != ""
    ensures a.id != "" ==> r == a.id
    ensures a.id == "" && a.email != "" ==> r == a.email
    ensures a.id == "" && a.email == "" && a.displayName != "" ==> r == CleanString(a.displayName)
    ensures a.id == "" && a.email == "" && a.displayName == "" ==> r == "sadness"
  {
    if a.id != "" then a.id
    else if a.email != "" then a.email
    else if a.displayName != "" then
      assert CleanString(a.displayName) != "" by { CleanStringEmpty(a.displayName); }
      CleanString(a.displayName)
    else "sadness"
  }

  /** The attendees in the order `sort.SliceStable` leaves them in: by `CanonicalId`, ties in input order. */
  function SortedAttendees(e: Event): seq<Attendee> {
    SortBy(e.attendees, CanonicalId)
  }

  /** The response glyph; the tentative answer is only recognised under the spelling "tenative". */
  function Glyph(responseStatus: string): (r: char)
    ensures r == '\U{2717}' <==> responseStatus == "declined"
    ensures r == '\U{2610}' <==> responseStatus == "tenative"
    ensures r == '\U{2713}' <==> responseStatus == "accepted"
    ensures r == ' ' <==> responseStatus != "declined" && responseStatus != "tenative" && responseStatus != "accepted"
  {
    if responseStatus == "declined" then '\U{2717}'
    else if responseStatus == "tenative" then '\U{2610}'
    else if responseStatus == "accepted" then '\U{2713}'
    else ' '
  }

  /** The link text: the cleaned display name, or the email when the display name is empty. */
  function LinkName(a: Attendee): (r: string)
    ensures r == if a.displayName == "" then a.email else CleanString(a.displayName)
  {
    CleanStringEmpty(a.displayName);
    var name := CleanString(a.displayName);
    if name == "" then a.email else name
  }

  function AttendeeLine(a: Attendee): string {
    [' ', Glyph(a.responseStatus)] + " [[mailto:" + a.email + "][" + LinkName(a) + "]]\n"
  }

  /** The "Attendees:" label when there is anyone, then either "... Many" (over twenty) or one line each. */
  function AttendeeBlock(attendees: seq<Attendee>): string {
    (if |attendees| > 0 then "Attendees:\n" else "")
    + (if |attendees| > 20 then "... Many\n" else Concat(attendees, AttendeeLine))
  }

  /** The authenticated user is this attendee and has declined. */
  predicate SelfDeclined(a: Attendee) {
    a.self && a.responseStatus == "declined"
  }

  /** Some attendee is the user and has declined. */
  predicate DeclinedAmong(attendees: seq<Attendee>) {
    exists a :: a in attendees && SelfDeclined(a)
  }

  /**
   * The entry is dropped: some attendee is the user and has declined. The test
   * runs only while listing attendees one by one, so never with over twenty.
   */
  predicate Suppressed(e: Event) {
    |e.attendees| <= 20 && DeclinedAmong(e.attendees)
  }

  /** The description between newlines, escaped, then a blank line. */
  function DescriptionText(e: Event): string {
    CleanString("\n" + e.description + "\n") + "\n"
  }

  /** The attachments that are not nil, in input order. */
  function Present(attachments: seq<Option<Attachment>>): seq<Attachment>
    decreases |attachments|
  {
    if attachments == [] then []
    else
      var last := attachments[|attachments| - 1];
      Present(attachments[..|attachments| - 1]) + (if last.Some? then [last.value] else [])
  }

  function AttachmentLine(a: Attachment): string {
    "- [[" + a.fileUrl + "][" + CleanString(a.title) + "]]\n"
  }

  /** The "Attachments:" block, present only when some line was written. */
  function AttachmentBlock(attachments: seq<Option<Attachment>>): string {
    var lines := Concat(Present(attachments), AttachmentLine);
    if |lines| > 0 then "\nAttachments:\n" + lines else ""
  }

  /** The whole entry `printOrg` builds for `e`. */
  function Entry(e: Event): string {
    Heading(e) + Properties(e) + PrintOrgDate(e.start, e.end) + "\n"
    + AttendeeBlock(SortedAttendees(e)) + DescriptionText(e) + AttachmentBlock(e.attachments)
  }

  /** What `printOrg` appends to the output for `e`. */
  function Rendered(e: Event): string {
    if Suppressed(e) then "" else Entry(e)
  }

  /**
   * The attendee loop of `printOrg`: one line per attendee in the order given;
   * `printEntry` is cleared on meeting an attendee who is the user and declined.
   */
  method ListAttendees(attendees: seq<Attendee>) returns (lines: string, printEntry: bool)
    ensures lines == Concat(attendees, AttendeeLine)
    ensures printEntry <==> !DeclinedAmong(attendees)
  {
    lines := "";
    printEntry := true;
    for k := 0 to |attendees|
      invariant lines == Concat(attendees[..k], AttendeeLine)
      invariant printEntry <==> !DeclinedAmong(attendees[..k])
    {
      var a := attendees[k];
      var statuschar := Glyph(a.responseStatus);
      var linkname := LinkName(a);
      var line := [' ', statuschar] + " [[mailto:" + a.email + "][" + linkname + "]]\n";
      assert line == AttendeeLine(a);
      ConcatStep(attendees, k, AttendeeLine);
      DeclinedAmongStep(attendees, k);
      lines := lines + line;
      if a.self && a.responseStatus == "declined" {
        printEntry := false;
      }
    }
    ConcatAll(attendees, AttendeeLine);
  }

  /**
   * The attendee part of `printOrg`: the label, then "... Many" or the lines;
   * the declined test is made only while listing, so never for over twenty.
   */
  method AttendeeSection(attendees: seq<Attendee>) returns (block: string, printEntry: bool)
    ensures block == AttendeeBlock(attendees)
    ensures printEntry <==> |attendees| > 20 || !DeclinedAmong(attendees)
  {
    block := "";
    printEntry := true;
    ghost var heading := if |attendees| > 0 then "Attendees:\n" else "";
    if |attendees| > 0 {
      block := block + "Attendees:\n";
    }
    EmptyNeutral(heading);
    if |attendees| > 20 {
      block := block + "... Many\n";
    } else {
      var lines;
      lines, printEntry := ListAttendees(attendees);
      block := block + lines;
    }
  }

  /** The attachment loop of `printOrg`: one line per attachment that is not nil, in input order. */
  method ListAttachments(attachments: seq<Option<Attachment>>) returns (attachmentEntries: string)
    ensures attachmentEntries == Concat(Present(attachments), AttachmentLine)
  {
    attachmentEntries := "";
    for k := 0 to |attachments|
      invariant attachmentEntries == Concat(Present(attachments[..k]), AttachmentLine)
    {
      PresentStep(attachments, k);
      if attachments[k].None? {
        continue;
      }
      var a := attachments[k].value;
      var line := "- [[" + a.fileUrl + "][" + CleanString(a.title) + "]]\n";
      assert line == AttachmentLine(a);
      attachmentEntries := attachmentEntries + line;
    }
    assert attachments[..|attachments|] == attachments;
  }

  /** The attachment part of `printOrg`: the title is written only above some line. */
  method AttachmentSection(attachments: seq<Option<Attachment>>) returns (block: string)
    ensures block == AttachmentBlock(attachments)
  {
    var attachmentTitle := "\nAttachments:\n";
    var attachmentEntries := ListAttachments(attachments);
    block := "";
    if |attachmentEntries| > 0 {
      block := attachmentTitle + attachmentEntries;
    }
  }

  /**
   * `printOrg` up to the final write: builds `fullentry` piece by piece and
   * clears `printEntry` when it meets an attendee who is the user and declined.
   */
  method BuildEntry(e: Event) returns (fullentry: string, printEntry: bool)
    ensures fullentry == Entry(e)
    ensures printEntry <==> !Suppressed(e)
  {
    fullentry := "";
    fullentry := fullentry + Heading(e);
    assert fullentry == Heading(e);
    fullentry := fullentry + Properties(e);
    fullentry := fullentry + PrintOrgDate(e.start, e.end) + "\n";
    ghost var head := fullentry;
    var attendees := SortBy(e.attendees, CanonicalId);
    var attendeeBlock;
    attendeeBlock, printEntry := AttendeeSection(attendees);
    SelfDeclinedAmongSame(attendees, e.attendees);
    fullentry := fullentry + attendeeBlock;
    var toP := "\n" + e.description + "\n";
    fullentry := fullentry + CleanString(toP);
    fullentry := fullentry + "\n";
    Associative(head + attendeeBlock, CleanString(toP), "\n");
    assert fullentry == head + attendeeBlock + DescriptionText(e);
    var attachmentBlock := AttachmentSection(e.attachments);
    fullentry := fullentry + attachmentBlock;
  }

  /** One more attendee: some attendee has declined as the user exactly when one did before or this one does. */
  lemma DeclinedAmongStep(s: seq<Attendee>, k: nat)
    requires k < |s|
    ensures DeclinedAmong(s[..k + 1]) <==> DeclinedAmong(s[..k]) || SelfDeclined(s[k])
  {
    assert s[..k + 1] == s[..k] + [s[k]];
    if SelfDeclined(s[k]) {
      assert s[k] in s[..k + 1];
    }
    if DeclinedAmong(s[..k + 1]) && !SelfDeclined(s[k]) {
      var x :| x in s[..k + 1] && SelfDeclined(x);
      assert x in s[..k];
    }
  }

  /** One more attachment adds its line when it is not nil. */
  lemma PresentStep(s: seq<Option<Attachment>>, k: nat)
    requires k < |s|
    ensures Present(s[..k + 1]) == Present(s[..k]) + (if s[k].Some? then [s[k].value] else [])
    ensures s[k].Some? ==> Concat(Present(s[..k + 1]), AttachmentLine) == Concat(Present(s[..k]), AttachmentLine) + AttachmentLine(s[k].value)
    ensures s[k].None? ==> Concat(Present(s[..k + 1]), AttachmentLine) == Concat(Present(s[..k]), AttachmentLine)
  {
    assert s[..k + 1][..k] == s[..k];
    var p := Present(s[..k]);
    if s[k].Some? {
      ConcatStep(p + [s[k].value], |p|, AttachmentLine);
      assert (p + [s[k].value])[..|p| + 1] == p + [s[k].value];
      assert (p + [s[k].value])[..|p|] == p;
    } else {
      assert p + [] == p;
    }
  }

  /** Reordering the attendees does not change whether one of them is the user and declined. */
  lemma SelfDeclinedAmongSame(s: seq<Attendee>, t: seq<Attendee>)
    requires multiset(s) == multiset(t)
    ensures DeclinedAmong(s) <==> DeclinedAmong(t)
  {
    forall a ensures a in s <==> a in t {
      assert a in s <==> a in multiset(s);
      assert a in t <==> a in multiset(t);
    }
  }

  /** `printOrg(e, tagname, out)`: appends the entry to `out` unless it is dropped. `tagname` is not used. */
  method PrintOrg(e: Event, tagname: string, out: Builder)
    modifies out
    ensures out.text == old(out.text) + Rendered(e)
  {
    var fullentry, printEntry := BuildEntry(e);
    if printEntry {
      out.WriteString(fullentry);
    }
  }

  // Properties of the entry

  /** Every entry opens with its heading, so an entry is never empty. */
  lemma EntryStartsWithHeading(e: Event)
    ensures |Entry(e)| >= |Heading(e)| >= 4
    ensures Entry(e)[..|Heading(e)|] == Heading(e)
    ensures Entry(e)[..3] == "** "
  {
    var h := Heading(e);
    var note := StatusNote(e.status) + (if e.summary == "" then "busy" else e.summary);
    StartsWith7(h, Properties(e), PrintOrgDate(e.start, e.end), "\n", AttendeeBlock(SortedAttendees(e)),
            DescriptionText(e), AttachmentBlock(e.attachments));
    StartsWith3("** ", note, "\n");
    assert Entry(e)[..3] == Entry(e)[..|h|][..3];
  }

  /**
   * What `printOrg` appends is all or nothing: nothing exactly when there are
   * at most twenty attendees and one of them is the user who declined, and
   * otherwise the whole entry.
   */
  lemma RenderedAllOrNothing(e: Event)
    ensures Rendered(e) == "" <==> |e.attendees| <= 20 && DeclinedAmong(e.attendees)
    ensures Rendered(e) != "" ==> Rendered(e) == Entry(e)
  {
    EntryStartsWithHeading(e);
  }

  /** A declined invitation is still shown when it has over twenty attendees, with the list cut to "... Many". */
  lemma ManyAttendeesAlwaysShown(e: Event)
    requires |e.attendees| > 20
    ensures Rendered(e) == Entry(e)
    ensures AttendeeBlock(SortedAttendees(e)) == "Attendees:\n... Many\n"
  {
  }

  /** With one to twenty attendees the block is the label and one line per attendee, stably ordered by `CanonicalId`. */
  lemma AttendeesInKeyOrder(e: Event)
    requires 0 < |e.attendees| <= 20
    ensures AttendeeBlock(SortedAttendees(e)) == "Attendees:\n" + Concat(SortedAttendees(e), AttendeeLine)
    ensures SortedBy(SortedAttendees(e), CanonicalId)
    ensures multiset(SortedAttendees(e)) == multiset(e.attendees)
    ensures KeepsTies(SortedAttendees(e), e.attendees, CanonicalId)
  {
  }

  /** The attachments that are not nil, in input order, across a split of the list. */
  lemma {:induction false} PresentConcat(xs: seq<Option<Attachment>>, ys: seq<Option<Attachment>>)
    ensures Present(xs + ys) == Present(xs) + Present(ys)
    decreases |ys|
  {
    if ys == [] {
      assert xs + ys == xs;
    } else {
      var ys' := ys[..|ys| - 1];
      var y := ys[|ys| - 1];
      assert (xs + ys)[..|xs + ys| - 1] == xs + ys';
      assert (xs + ys)[|xs + ys| - 1] == y;
      PresentConcat(xs, ys');
    }
  }

  /** An attachment is listed exactly when it occurs, not nil, in the input. */
  lemma {:induction false} PresentMembers(xs: seq<Option<Attachment>>, a: Attachment)
    ensures a in Present(xs) <==> Some(a) in xs
    decreases |xs|
  {
    if xs != [] {
      var xs' := xs[..|xs| - 1];
      assert xs == xs' + [xs[|xs| - 1]];
      PresentMembers(xs', a);
    }
  }

  /** The "Attachments:" block is written exactly when some attachment is not nil, and then lists those in order. */
  lemma AttachmentBlockShape(xs: seq<Option<Attachment>>)
    ensures AttachmentBlock(xs) != "" <==> exists i :: 0 <= i < |xs| && xs[i].Some?
    ensures AttachmentBlock(xs) != "" ==> AttachmentBlock(xs) == "\nAttachments:\n" + Concat(Present(xs), AttachmentLine)
  {
    ConcatEmpty(Present(xs), AttachmentLine);
    if exists i :: 0 <= i < |xs| && xs[i].Some? {
      var i :| 0 <= i < |xs| && xs[i].Some?;
      PresentMembers(xs, xs[i].value);
    } else if Present(xs) != [] {
      var a := Present(xs)[0];
      PresentMembers(xs, a);
    }
  }

  /** The escaped description has no brackets and no line starting with '*', which would read as a heading. */
  lemma DescriptionIsClean(e: Event)
    ensures Clean(CleanString("\n" + e.description + "\n"))
    ensures Clean(DescriptionText(e))
  {
    var c := CleanString("\n" + e.description + "\n");
    CleanStringEscapes("\n" + e.description + "\n");
    var r := c + "\n";
    assert forall i :: 0 <= i < |c| ==> r[i] == c[i];
  }

  /** The summary goes into the heading unescaped: brackets in it are kept as they are. */
  lemma SummaryKeptVerbatim(e: Event)
    requires e.summary == "[Q1]" && e.status == "confirmed"
    ensures Heading(e) == "** [Q1]\n"
  {
  }

  /** An empty summary is shown as "busy", after the status note. */
  lemma EmptySummaryIsBusy(e: Event)
    requires e.summary == "" && e.status == "cancelled"
    ensures Heading(e) == "** (cancelled) busy\n"
  {
  }
}

/**
 * The records of the Google Calendar API (v3) that the renderer reads, with only
 * the fields it uses. Strings the API leaves out are empty strings, references the
 * API leaves nil are `None`.
 */
module CalendarApi {
  import opened Wrappers
  import opened Civil

  /**
   * `EventDateTime`, given as what the renderer derives from it:
   * `allDay` is "the `Date` field is not empty"; `date` is the `Date` field read
   * with the layout "2006-01-02"; `local` is the `DateTime` field read as RFC 3339
   * and shown in the local zone. A field that is empty or does not parse reads as
   * Go's zero time, so `date` and `local` always hold some valid value.
   */
  datatype EventDateTime = EventDateTime(allDay: bool, date: CivilDate, local: Stamp)

  /** `EventCreator` and `EventOrganizer`. */
  datatype Person = Person(email: string, displayName: string)

  /** `EventAttendee`; `responseStatus` is the raw string the API sends. */
  datatype Attendee = Attendee(id: string, email: string, displayName: string, responseStatus: string, self: bool)

  /** `EventAttachment`. */
  datatype Attachment = Attachment(fileUrl: string, title: string)

  /** `Event`. Attendees are never nil; attachments may be. */
  datatype Event = Event(
    id: string,
    iCalUID: string,
    status: string,
    summary: string,
    htmlLink: string,
    creator: Option<Person>,
    organizer: Option<Person>,
    start: Option<EventDateTime>,
    end: Option<EventDateTime>,
    attendees: seq<Attendee>,
    description: string,
    attachments: seq<Option<Attachment>>)

  /** `CalendarListEntry`. */
  datatype CalendarListEntry = CalendarListEntry(id: string, summary: string, description: string)

  /** One answer of `Events.List`: the page's items and the token of the next page ("" on the last page). */
  datatype Page = Page(items: seq<Event>, nextPageToken: string)
}

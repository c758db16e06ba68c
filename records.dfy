/**
 * The two value shapes the in-memory catalogue works with: the catalogue's own
 * event record (tags as a list of strings, an id, two timestamps) and the
 * request data handed to the catalogue (a JSON object whose keys may be absent).
 */
module Records {
  import opened Wrappers

  /**
   * An event as the catalogue stores it. The timestamps are supplied by the
   * caller (they come from a clock in the running system).
   */
  datatype Event = Event(
    id: string,
    name: string,
    date: string,
    location: string,
    description: string,
    tags: seq<string>,
    createdAt: int,
    updatedAt: int)

  /** The fields of a request object the catalogue reads; `None` is an absent key. */
  datatype EventData = EventData(
    name: Option<string>,
    date: Option<string>,
    location: Option<string>,
    description: Option<string>,
    tags: Option<seq<string>>)

  /** A field of the request looked up by its name, as `data.get(field)` does. */
  function Field(data: EventData, field: string): Option<string> {
    if field == "name" then data.name
    else if field == "date" then data.date
    else if field == "location" then data.location
    else if field == "description" then data.description
    else None
  }
}

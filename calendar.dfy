/**
 The canonical calendar shapes that the view layer builds and hands on:
 one grid cell, a calendar document (a list of cells), the record kept
 in the calendar store, and the serialised text of a document.
 */
module Calendar {

  /** One time slot of the weekly grid with the people busy in it. */
  datatype Cell = Cell(id: string, users: seq<string>, numPeople: int)

  /** A calendar document `{cells: [...]}`. */
  datatype Doc = Doc(cells: seq<Cell>)

  /** The serialised form of a document. `JSON.stringify` of a document
      gives `Serialized`; text produced elsewhere (the iCalendar converter)
      may also be `Malformed`, text on which `JSON.parse` throws. The
      character-level encoding is not modelled. */
  datatype JsonText = Serialized(doc: Doc) | Malformed

  datatype Option<T> = None | Some(value: T)

  /** A stored calendar: who it belongs to, the feed it came from
      (empty for a manual calendar) and its serialised document. */
  datatype CalendarRecord = CalendarRecord(user: string, icalUrl: string, calendarJson: JsonText)

  /** The document `{cells: []}`. */
  const EmptyDoc: Doc := Doc([])

  /** `JSON.stringify` of a document. */
  function Stringify(d: Doc): (t: JsonText)
    ensures Parse(t) == Some(d)
  {
    Serialized(d)
  }

  /** `JSON.parse`: `None` where it throws. */
  function Parse(t: JsonText): Option<Doc>
  {
    match t
    case Serialized(d) => Some(d)
    case Malformed => None
  }

  /** A cell as it may appear in a document: somebody occupies it and
      its count agrees with its occupant list. */
  predicate CellWellFormed(c: Cell)
  {
    |c.users| > 0 && c.numPeople == |c.users|
  }

  /** Every cell is well formed and no grid position appears twice. */
  predicate DocWellFormed(d: Doc)
  {
    && (forall k :: 0 <= k < |d.cells| ==> CellWellFormed(d.cells[k]))
    && (forall i, j :: 0 <= i < j < |d.cells| ==> d.cells[i].id != d.cells[j].id)
  }
}

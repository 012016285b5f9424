/**
 The calendar-management view: the manual grid selection, the two ways
 of setting up a new calendar (manual cells and an iCalendar feed), and
 the two displays (one person's calendar and the combination of all).

 The helpers this view calls but whose code is not part of the model
 (`combine`, `converter`, `selectCurrentWeek`, `calendarCellSchema.parse`)
 are parameters of the members that call them. The one assumption made
 about them, that the schema returns a cell it accepts unchanged, is
 stated as `PassesThrough` in the requires of the lemmas that need it.
 */
module ManageCalendars {
  import opened Calendar
  import opened JsStrings

  /** The failures the view can run into. */
  datatype Failure =
    | SchemaError(id: string)       // `calendarCellSchema.parse` threw on the cell with this id
    | UndefinedRecord(name: string) // no stored calendar belongs to `name`
    | MalformedJson                 // `JSON.parse` threw on a stored document

  datatype Result<T> = Ok(value: T) | Err(error: Failure)

  /** What is handed to the display: the page title, the document and the
      number of source calendars it was built from. */
  datatype Display = Display(title: string, calendarJson: JsonText, count: nat)

  // ---------------------------------------------------------------------
  // Manual selection
  // ---------------------------------------------------------------------

  /** The selection state: the ids in click order and the ids whose cell
      is marked selected. */
  datatype Selection = Selection(cellList: seq<string>, selected: set<string>)

  predicate NoDuplicates(s: seq<string>)
  {
    forall i, j :: 0 <= i < j < |s| ==> s[i] != s[j]
  }

  /** The list holds exactly the selected ids, each once. */
  predicate Consistent(st: Selection)
  {
    && (forall x :: x in st.cellList ==> x in st.selected)
    && (forall x :: x in st.selected ==> x in st.cellList)
    && NoDuplicates(st.cellList)
  }

  /** `s` can be obtained from `t` by deleting elements. */
  predicate IsSubsequence(s: seq<string>, t: seq<string>)
    decreases |t|
  {
    if s == [] then true
    else if t == [] then false
    else if s[0] == t[0] then IsSubsequence(s[1..], t[1..])
    else IsSubsequence(s, t[1..])
  }

  /** `s.filter((x) => x != id)`. */
  function RemoveAll(s: seq<string>, id: string): seq<string>
  {
    if s == [] then []
    else if s[0] != id then [s[0]] + RemoveAll(s[1..], id)
    else RemoveAll(s[1..], id)
  }

  /** Filtering drops every occurrence of `id` and keeps every other one. */
  lemma {:induction false} RemoveAllMultiset(s: seq<string>, id: string)
    ensures multiset(RemoveAll(s, id)) == multiset(s)[id := 0]
  {
    if s != [] {
      RemoveAllMultiset(s[1..], id);
      assert s == [s[0]] + s[1..];
    }
  }

  /** Filtering keeps the surviving ids in their original order. */
  lemma {:induction false} RemoveAllSubsequence(s: seq<string>, id: string)
    ensures IsSubsequence(RemoveAll(s, id), s)
  {
    if s != [] {
      var r := RemoveAll(s[1..], id);
      RemoveAllSubsequence(s[1..], id);
      if s[0] != id {
        assert ([s[0]] + r)[1..] == r;
      } else if r != [] {
        RemoveAllMembership(s[1..], id, r[0]);
      }
    }
  }

  lemma RemoveAllMembership(s: seq<string>, id: string, x: string)
    ensures x in RemoveAll(s, id) <==> x in s && x != id
  {
    RemoveAllMultiset(s, id);
    assert x in RemoveAll(s, id) <==> x in multiset(RemoveAll(s, id));
    assert x in s <==> x in multiset(s);
  }

  /** Filtering a list whose last entry is the only `id` gives the rest. */
  lemma {:induction false} RemoveAllLast(p: seq<string>, id: string)
    requires id !in p
    ensures RemoveAll(p + [id], id) == p
  {
    if p == [] {
      assert [] + [id] == [id];
    } else {
      assert (p + [id])[1..] == p[1..] + [id];
      assert id !in p[1..];
      RemoveAllLast(p[1..], id);
      assert [p[0]] + p[1..] == p;
    }
  }

  /** No id occurs twice after filtering a list without repetitions. */
  lemma {:induction false} RemoveAllNoDuplicates(s: seq<string>, id: string)
    requires NoDuplicates(s)
    ensures NoDuplicates(RemoveAll(s, id))
  {
    if s != [] {
      var tail := s[1..];
      assert NoDuplicates(tail) by {
        forall i, j | 0 <= i < j < |tail| ensures tail[i] != tail[j] {
          assert tail[i] == s[i + 1] && tail[j] == s[j + 1];
        }
      }
      RemoveAllNoDuplicates(tail, id);
      if s[0] != id {
        var head, r := s[0], RemoveAll(tail, id);
        assert head !in tail by {
          forall k | 0 <= k < |tail| ensures tail[k] != head {
            assert tail[k] == s[k + 1];
          }
        }
        RemoveAllMembership(tail, id, head);
        var whole := [head] + r;
        forall i, j | 0 <= i < j < |whole| ensures whole[i] != whole[j] {
          assert whole[j] == r[j - 1];
          if i > 0 {
            assert whole[i] == r[i - 1];
          }
        }
      }
    }
  }

  /** A click on the cell `id` (`setCell`): a selected cell is unmarked and
      every occurrence of its id filtered out of the list; an unselected
      cell is marked and its id pushed onto the list. */
  function Toggle(st: Selection, id: string): Selection
  {
    if id in st.selected then
      Selection(RemoveAll(st.cellList, id), st.selected - {id})
    else
      Selection(st.cellList + [id], st.selected + {id})
  }

  /** Clicking a selected cell removes all of its entries, keeps the others
      in their order, and unmarks it. */
  lemma ToggleSelected(st: Selection, id: string)
    requires id in st.selected
    ensures var r := Toggle(st, id);
      && IsSubsequence(r.cellList, st.cellList)
      && multiset(r.cellList) == multiset(st.cellList)[id := 0]
      && id !in r.cellList
      && r.selected == st.selected - {id}
  {
    RemoveAllMultiset(st.cellList, id);
    RemoveAllSubsequence(st.cellList, id);
    RemoveAllMembership(st.cellList, id, id);
  }

  /** Clicking an unselected cell appends its id after the unchanged
      earlier entries and marks it. */
  lemma ToggleUnselected(st: Selection, id: string)
    requires id !in st.selected
    ensures var r := Toggle(st, id);
      && |r.cellList| == |st.cellList| + 1
      && r.cellList[..|st.cellList|] == st.cellList
      && r.cellList[|st.cellList|] == id
      && r.selected == st.selected + {id}
  {
  }

  /** Every click keeps "listed exactly when selected, each id once". */
  lemma ToggleConsistent(st: Selection, id: string)
    requires Consistent(st)
    ensures Consistent(Toggle(st, id))
  {
    var r := Toggle(st, id);
    if id in st.selected {
      RemoveAllNoDuplicates(st.cellList, id);
      forall x ensures x in r.cellList <==> x in r.selected {
        RemoveAllMembership(st.cellList, id, x);
      }
    } else {
      assert id !in st.cellList;
    }
  }

  /** Two clicks on a cell that was not selected restore the state exactly. */
  lemma ToggleTwiceFromUnselected(st: Selection, id: string)
    requires id !in st.selected && id !in st.cellList
    ensures Toggle(Toggle(st, id), id) == st
  {
    RemoveAllLast(st.cellList, id);
  }

  /** Two clicks on a cell that was selected restore the marks, but move its
      id to the end of the list: the list comes back unchanged exactly when
      the id already was its last entry. */
  lemma ToggleTwiceFromSelected(st: Selection, id: string)
    requires Consistent(st)
    requires id in st.selected
    ensures var r := Toggle(Toggle(st, id), id);
      && r.selected == st.selected
      && r.cellList == RemoveAll(st.cellList, id) + [id]
      && (r.cellList == st.cellList <==> st.cellList[|st.cellList| - 1] == id)
  {
    var s := st.cellList;
    assert id in s;
    RemoveAllMembership(s, id, id);
    var r := Toggle(Toggle(st, id), id);
    if s[|s| - 1] == id {
      var p := s[..|s| - 1];
      assert s == p + [id];
      assert id !in p by {
        forall k | 0 <= k < |p| ensures p[k] != id {
          assert p[k] == s[k];
        }
      }
      RemoveAllLast(p, id);
    }
  }

  /** The state after the cells `ids` are clicked in turn. */
  function Clicks(st: Selection, ids: seq<string>): Selection
    decreases |ids|
  {
    if ids == [] then st else Clicks(Toggle(st, ids[0]), ids[1..])
  }

  /** Starting from a consistent state, such as the one
      `initializeCellListeners` leaves, any run of clicks stays consistent. */
  lemma {:induction false} ClicksConsistent(st: Selection, ids: seq<string>)
    requires Consistent(st)
    ensures Consistent(Clicks(st, ids))
    decreases |ids|
  {
    if ids != [] {
      ToggleConsistent(st, ids[0]);
      ClicksConsistent(Toggle(st, ids[0]), ids[1..]);
    }
  }

  /** The module-level list of selected cells and the cells' selected marks. */
  class ManualEntry {
    var cellList: seq<string>
    var selected: set<string>

    function State(): Selection
      reads this
    {
      Selection(cellList, selected)
    }

    /** Module load: `cellList` starts empty; the grid's marks are whatever
        the page shows. */
    constructor (marked: set<string>)
      ensures cellList == [] && selected == marked
    {
      cellList := [];
      selected := marked;
    }

    /** `initializeCellListeners`: empty the list and unmark every cell. */
    method InitializeCellListeners()
      modifies this
      ensures cellList == [] && selected == {}
      ensures Consistent(State())
    {
      cellList := [];
      selected := {};
    }

    /** `setCell`. */
    method SetCell(id: string)
      modifies this
      ensures State() == Toggle(old(State()), id)
      ensures Consistent(old(State())) ==> Consistent(State())
    {
      if id in selected {
        selected := selected - {id};
        cellList := RemoveAll(cellList, id);
      } else {
        selected := selected + {id};
        cellList := cellList + [id];
      }
      ghost var before := old(State());
      if Consistent(before) {
        ToggleConsistent(before, id);
      }
    }

    /** `setupNewManual`: build the record for the listed cells and empty
        the list. When the schema rejects a cell the exception leaves the
        list as it was. The marks on the grid are not touched, so the state
        stays consistent only if nothing was marked. */
    method SetupNewManual(name: string, schemaParse: Cell -> Option<Cell>)
      returns (r: Result<CalendarRecord>)
      modifies this
      ensures r == ManualRecord(old(cellList), name, schemaParse)
      ensures cellList == (if r.Ok? then [] else old(cellList))
      ensures selected == old(selected)
      ensures r.Ok? ==> (Consistent(State()) <==> selected == {})
    {
      r := ManualRecord(cellList, name, schemaParse);
      if r.Ok? {
        cellList := [];
        if selected != {} {
          ghost var x :| x in selected;
          assert x !in cellList;
        }
      }
    }
  }

  // ---------------------------------------------------------------------
  // Manual calendar construction
  // ---------------------------------------------------------------------

  /** `cellList.map(...)`: one cell per listed id, owned by `name` alone. */
  function ManualCells(ids: seq<string>, name: string): (cells: seq<Cell>)
    ensures |cells| == |ids|
    ensures forall k :: 0 <= k < |ids| ==>
      cells[k].id == ids[k] && cells[k].users == [name] && cells[k].numPeople == 1
  {
    if ids == [] then []
    else [Cell(ids[0], [name], 1)] + ManualCells(ids[1..], name)
  }

  /** `calendarCellSchema.parse` applied to each cell in order, as the
      `map` callback does. The schema is a parameter: `None` means the
      parse throws, and the first such cell aborts the map with its id. */
  function ParseCells(cells: seq<Cell>, schemaParse: Cell -> Option<Cell>): (r: Result<seq<Cell>>)
    ensures r.Ok? <==> forall k :: 0 <= k < |cells| ==> schemaParse(cells[k]).Some?
    ensures r.Ok? ==> |r.value| == |cells|
    ensures r.Ok? ==> forall k :: 0 <= k < |cells| ==> r.value[k] == schemaParse(cells[k]).value
    ensures r.Err? ==> exists k :: (0 <= k < |cells| && schemaParse(cells[k]).None?
      && r.error == SchemaError(cells[k].id)
      && forall j :: 0 <= j < k ==> schemaParse(cells[j]).Some?)
  {
    if cells == [] then Ok([])
    else match schemaParse(cells[0])
      case None => Err(SchemaError(cells[0].id))
      case Some(first) =>
        assert forall k :: 1 <= k < |cells| ==> cells[k] == cells[1..][k - 1];
        match ParseCells(cells[1..], schemaParse)
        case Ok(rest) => Ok([first] + rest)
        case Err(e) => Err(e)
  }

  /** A schema whose successful parse returns its input unchanged, as a
      validating schema that adds no defaults and strips no fields does. */
  ghost predicate PassesThrough(schemaParse: Cell -> Option<Cell>)
  {
    forall c :: schemaParse(c).Some? ==> schemaParse(c).value == c
  }

  /** The record `setupNewManual` hands to the store. */
  function ManualRecord(ids: seq<string>, name: string, schemaParse: Cell -> Option<Cell>): Result<CalendarRecord>
  {
    match ParseCells(ManualCells(ids, name), schemaParse)
    case Ok(cells) => Ok(CalendarRecord(name, "", Stringify(Doc(cells))))
    case Err(e) => Err(e)
  }

  /** A manual calendar belongs to `name`, has no feed, and holds the
      schema's output for each listed id's cell `{id, [name], 1}`, in list
      order; it is refused, with the id of the first rejected cell, exactly
      when the schema rejects one of those cells. */
  lemma ManualRecordSpec(ids: seq<string>, name: string, schemaParse: Cell -> Option<Cell>)
    ensures var r := ManualRecord(ids, name, schemaParse);
      && (r.Ok? <==> forall k :: 0 <= k < |ids| ==> schemaParse(Cell(ids[k], [name], 1)).Some?)
      && (r.Err? ==> exists k :: (0 <= k < |ids| && schemaParse(Cell(ids[k], [name], 1)).None?
        && r.error == SchemaError(ids[k])
        && forall j :: 0 <= j < k ==> schemaParse(Cell(ids[j], [name], 1)).Some?))
      && (r.Ok? ==>
        && r.value.user == name
        && r.value.icalUrl == ""
        && Parse(r.value.calendarJson).Some?
        && |Parse(r.value.calendarJson).value.cells| == |ids|
        && forall k :: 0 <= k < |ids| ==>
          Parse(r.value.calendarJson).value.cells[k] == schemaParse(Cell(ids[k], [name], 1)).value)
  {
    var cells := ManualCells(ids, name);
    assert forall k :: 0 <= k < |ids| ==> cells[k] == Cell(ids[k], [name], 1);
  }

  /** With a schema that passes valid cells through, the stored cells are
      exactly `{id, [name], 1}` for each listed id, in order. */
  lemma ManualRecordCells(ids: seq<string>, name: string, schemaParse: Cell -> Option<Cell>)
    requires PassesThrough(schemaParse)
    requires ManualRecord(ids, name, schemaParse).Ok?
    ensures var d := Parse(ManualRecord(ids, name, schemaParse).value.calendarJson);
      && d.Some?
      && |d.value.cells| == |ids|
      && forall k :: 0 <= k < |ids| ==> d.value.cells[k] == Cell(ids[k], [name], 1)
  {
    ManualRecordSpec(ids, name, schemaParse);
  }

  /** Built from a consistent selection through such a schema, a manual
      calendar is a well-formed document: every count matches its
      occupants and no id repeats. */
  lemma ManualDocWellFormed(st: Selection, name: string, schemaParse: Cell -> Option<Cell>)
    requires Consistent(st)
    requires PassesThrough(schemaParse)
    requires ManualRecord(st.cellList, name, schemaParse).Ok?
    ensures var d := Parse(ManualRecord(st.cellList, name, schemaParse).value.calendarJson);
      d.Some? && DocWellFormed(d.value)
  {
    ManualRecordCells(st.cellList, name, schemaParse);
  }

  // ---------------------------------------------------------------------
  // iCalendar set-up
  // ---------------------------------------------------------------------

  /** One event of the current week: start and end as date strings. */
  datatype Event = Event(start: string, end: string)

  /** What a template literal prints for `arr[k]`: the token, or the word
      `undefined` past the end of the array. */
  function TokenAt(arr: seq<string>, k: nat): string
  {
    if k < |arr| then arr[k] else "undefined"
  }

  /** `applyNewFormat`: keep tokens 0, 3 and 4 of the date, separated by
      single spaces. */
  function ApplyNewFormat(date: string): string
  {
    var arr := Split(date);
    TokenAt(arr, 0) + " " + TokenAt(arr, 3) + " " + TokenAt(arr, 4)
  }

  /** The reformatted date splits into exactly three tokens: tokens 0, 3
      and 4 of the input, with `undefined` standing in for missing ones. */
  lemma ApplyNewFormatTokens(date: string)
    ensures var arr := Split(date);
      Split(ApplyNewFormat(date)) == [TokenAt(arr, 0), TokenAt(arr, 3), TokenAt(arr, 4)]
    ensures |Split(date)| >= 5 ==> var arr := Split(date);
      Split(ApplyNewFormat(date)) == [arr[0], arr[3], arr[4]]
  {
    var arr := Split(date);
    assert ' ' !in "undefined";
    SplitThree(TokenAt(arr, 0), TokenAt(arr, 3), TokenAt(arr, 4));
  }

  /** Three space-free tokens joined by single spaces split back into them. */
  lemma SplitThree(a: string, b: string, c: string)
    requires ' ' !in a && ' ' !in b && ' ' !in c
    ensures Split(a + " " + b + " " + c) == [a, b, c]
  {
    var bc := b + " " + c;
    assert a + " " + b + " " + c == a + " " + bc;
    SplitSpaceFree(c);
    SplitAtFirstSpace(b, c);
    assert Split(bc) == [b, c];
    SplitAtFirstSpace(a, bc);
    assert Split(a + " " + bc) == [a] + [b, c];
  }

  /** The `actual.map(...)` of `setupNewIcal`. */
  function FormatEvents(events: seq<Event>): (r: seq<Event>)
    ensures |r| == |events|
    ensures forall k :: 0 <= k < |events| ==>
      r[k].start == ApplyNewFormat(events[k].start) && r[k].end == ApplyNewFormat(events[k].end)
  {
    if events == [] then []
    else
      var first := Event(ApplyNewFormat(events[0].start), ApplyNewFormat(events[0].end));
      [first] + FormatEvents(events[1..])
  }

  /** The record `setupNewIcal` hands to the store, given the fetched feed:
      the current week's events are reformatted and converted for `name`. */
  function IcalRecord<Feed>(
    feed: Feed, name: string, url: string,
    selectCurrentWeek: Feed -> seq<Event>,
    converter: (seq<Event>, string) -> JsonText): (r: CalendarRecord)
    ensures r.user == name && r.icalUrl == url
    ensures r.calendarJson == converter(FormatEvents(selectCurrentWeek(feed)), name)
  {
    CalendarRecord(name, url, converter(FormatEvents(selectCurrentWeek(feed)), name))
  }

  // ---------------------------------------------------------------------
  // Displays
  // ---------------------------------------------------------------------

  /** `JSON.parse` of a stored document combined into the accumulator;
      `None` when the parse throws. */
  function CombineStep(combine: (Doc, Doc) -> Doc, acc: Doc, t: JsonText): Option<Doc>
  {
    match Parse(t)
    case None => None
    case Some(d) => Some(combine(acc, d))
  }

  /** Left fold of `combine` over the stored documents, in list order;
      `None` once a stored document fails to parse. */
  function CombineFrom(combine: (Doc, Doc) -> Doc, acc: Doc, calList: seq<CalendarRecord>): Option<Doc>
    decreases |calList|
  {
    if calList == [] then Some(acc)
    else match CombineStep(combine, acc, calList[0].calendarJson)
      case None => None
      case Some(next) => CombineFrom(combine, next, calList[1..])
  }

  /** The combined document of a list of calendars, folded from `{cells: []}`. */
  function CombineAll(combine: (Doc, Doc) -> Doc, calList: seq<CalendarRecord>): Option<Doc>
  {
    CombineFrom(combine, EmptyDoc, calList)
  }

  /** Folding one more calendar combines it into the fold of the others. */
  lemma {:induction false} CombineFromSnoc(
    combine: (Doc, Doc) -> Doc, acc: Doc, calList: seq<CalendarRecord>, last: CalendarRecord)
    ensures CombineFrom(combine, acc, calList + [last])
      == match CombineFrom(combine, acc, calList)
         case None => None
         case Some(x) => CombineStep(combine, x, last.calendarJson)
    decreases |calList|
  {
    if calList == [] {
      assert ([] + [last])[1..] == [];
    } else {
      assert (calList + [last])[1..] == calList[1..] + [last];
      match CombineStep(combine, acc, calList[0].calendarJson)
      case None =>
      case Some(next) => CombineFromSnoc(combine, next, calList[1..], last);
    }
  }

  /** The fold succeeds exactly when every stored document parses. */
  lemma {:induction false} CombineFromDefined(
    combine: (Doc, Doc) -> Doc, acc: Doc, calList: seq<CalendarRecord>)
    ensures CombineFrom(combine, acc, calList).Some?
      <==> forall k :: 0 <= k < |calList| ==> Parse(calList[k].calendarJson).Some?
    decreases |calList|
  {
    if calList != [] {
      assert forall k :: 1 <= k < |calList| ==> calList[k] == calList[1..][k - 1];
      match CombineStep(combine, acc, calList[0].calendarJson)
      case None =>
      case Some(next) => CombineFromDefined(combine, next, calList[1..]);
    }
  }

  /** `viewCombinedCalendar`: the first stored document that fails to
      parse aborts it; otherwise it shows the fold of all of them. */
  method ViewCombinedCalendar(calList: seq<CalendarRecord>, combine: (Doc, Doc) -> Doc)
    returns (r: Result<Display>)
    ensures r.Ok? <==> forall k :: 0 <= k < |calList| ==> Parse(calList[k].calendarJson).Some?
    ensures r.Err? ==> r.error == MalformedJson
    ensures r.Ok? ==> && r.value.title == "Combined Calendar"
                      && Parse(r.value.calendarJson) == CombineAll(combine, calList)
                      && r.value.count == |calList|
    ensures calList == [] ==> r == Ok(Display("Combined Calendar", Stringify(EmptyDoc), 0))
  {
    var combination := EmptyDoc;
    var i := 0;
    while i < |calList|
      invariant 0 <= i <= |calList|
      invariant CombineAll(combine, calList[..i]) == Some(combination)
      invariant forall k :: 0 <= k < i ==> Parse(calList[k].calendarJson).Some?
    {
      CombineFromSnoc(combine, EmptyDoc, calList[..i], calList[i]);
      assert calList[..i + 1] == calList[..i] + [calList[i]];
      var parsed := Parse(calList[i].calendarJson);
      if parsed.None? {
        return Err(MalformedJson);
      }
      combination := combine(combination, parsed.value);
      i := i + 1;
    }
    assert calList[..|calList|] == calList;
    r := Ok(Display("Combined Calendar", Stringify(combination), |calList|));
  }

  /** `calList.filter((x) => x.user === name)`. */
  function RecordsOf(calList: seq<CalendarRecord>, name: string): (r: seq<CalendarRecord>)
    ensures |r| > 0 <==> exists i :: 0 <= i < |calList| && calList[i].user == name
    ensures |r| > 0 ==> exists i :: (0 <= i < |calList| && calList[i].user == name
      && (forall j :: 0 <= j < i ==> calList[j].user != name) && r[0] == calList[i])
  {
    if calList == [] then []
    else
      var rest := RecordsOf(calList[1..], name);
      assert forall i :: 1 <= i < |calList| ==> calList[i] == calList[1..][i - 1];
      if calList[0].user == name then [calList[0]] + rest else rest
  }

  /** `openCalendar`: show the first calendar stored for `name`, counted
      as one source. With none, reading `.calendarJson` of `undefined`
      throws. */
  function OpenCalendar(calList: seq<CalendarRecord>, name: string): (r: Result<Display>)
    ensures r.Ok? <==> exists i :: 0 <= i < |calList| && calList[i].user == name
    ensures r.Err? ==> r.error == UndefinedRecord(name)
    ensures r.Ok? ==> exists i :: (0 <= i < |calList| && calList[i].user == name
      && (forall j :: 0 <= j < i ==> calList[j].user != name)
      && r.value == Display(name + "'s Calendar", calList[i].calendarJson, 1))
  {
    var matches := RecordsOf(calList, name);
    if |matches| == 0 then Err(UndefinedRecord(name))
    else Ok(Display(name + "'s Calendar", matches[0].calendarJson, 1))
  }

  /** Calendars stored later for the same person are never shown. */
  lemma OpenCalendarIgnoresLater(calList: seq<CalendarRecord>, later: seq<CalendarRecord>, name: string)
    requires OpenCalendar(calList, name).Ok?
    ensures OpenCalendar(calList + later, name) == OpenCalendar(calList, name)
  {
    var i :| 0 <= i < |calList| && calList[i].user == name
      && (forall j :: 0 <= j < i ==> calList[j].user != name)
      && OpenCalendar(calList, name).value == Display(name + "'s Calendar", calList[i].calendarJson, 1);
    var whole := calList + later;
    assert whole[i] == calList[i];
    var r := OpenCalendar(whole, name);
    var i' :| 0 <= i' < |whole| && whole[i'].user == name
      && (forall j :: 0 <= j < i' ==> whole[j].user != name)
      && r.value == Display(name + "'s Calendar", whole[i'].calendarJson, 1);
    assert whole[i] == calList[i];
    assert i' == i;
  }
}

/** The calendar component: a list of events keyed by day, the selected day, the
    event list shown for that day and the marking of day cells that have events.
    Day keys are opaque strings; the month grid arithmetic and navigation are not
    modelled, so the keys of the grid's cells are given to `RenderDays`. */
module CalendarView {
  import opened JsValues

  /** Whether `e` is stored under `date` with `title` (the submit handler's replace test). */
  predicate SameSlot(e: Event, date: string, title: string)
  {
    e.date == date && e.title == title
  }

  /** The events that a submit for (`date`, `title`) keeps, in their stored order. */
  function OtherSlots(events: seq<Event>, date: string, title: string): (r: seq<Event>)
    ensures |r| <= |events|
    ensures forall e :: e in r <==> e in events && !SameSlot(e, date, title)
  {
    Filter(events, (e: Event) => !SameSlot(e, date, title))
  }

  /** The list after a valid submit: the other events, then the new one. */
  function Upserted(events: seq<Event>, date: string, title: string, description: string): (r: seq<Event>)
    ensures |r| >= 1 && r[|r| - 1] == Event(date, title, description)
    ensures r[..|r| - 1] == OtherSlots(events, date, title)
    ensures forall i :: 0 <= i < |r| && SameSlot(r[i], date, title) ==> i == |r| - 1
    ensures forall e :: e in events && !SameSlot(e, date, title) ==> e in r
    ensures forall e :: e in r ==> e in events || e == Event(date, title, description)
    ensures (forall i :: 0 <= i < |events| ==> !SameSlot(events[i], date, title)) ==> r == events + [Event(date, title, description)]
  {
    var kept := OtherSlots(events, date, title);
    assert forall i :: 0 <= i < |kept| ==> kept[i] in kept;
    FilterIdentity(events, (e: Event) => !SameSlot(e, date, title));
    kept + [Event(date, title, description)]
  }

  /** A submit keeps the other events in their stored order: the kept part of a
      concatenation is the kept parts side by side. */
  lemma UpsertedAppend(a: seq<Event>, b: seq<Event>, date: string, title: string, description: string)
    ensures Upserted(a + b, date, title, description) == OtherSlots(a, date, title) + Upserted(b, date, title, description)
  {
    FilterAppend(a, b, (e: Event) => !SameSlot(e, date, title));
  }

  /** Submitting the same event twice leaves the list as after the first submit. */
  lemma {:induction false} UpsertedIdempotent(events: seq<Event>, date: string, title: string, description: string)
    ensures Upserted(Upserted(events, date, title, description), date, title, description)
         == Upserted(events, date, title, description)
  {
    var e := Event(date, title, description);
    var p := (x: Event) => !SameSlot(x, date, title);
    var kept := OtherSlots(events, date, title);
    assert Upserted(events, date, title, description) == kept + [e];
    FilterAppend(kept, [e], p);
    FilterIdempotent(events, p);
    assert Filter([e], p) == [] by {
      assert [e][1..] == [];
    }
    assert OtherSlots(kept + [e], date, title) == kept;
  }

  /** `events.filter(event => event.date === date)`: the events of one day, in stored order. */
  function EventsOn(events: seq<Event>, date: string): (r: seq<Event>)
    ensures |r| <= |events|
    ensures forall e :: e in r <==> e in events && e.date == date
  {
    Filter(events, (e: Event) => e.date == date)
  }

  /** The event list of a concatenation is the concatenation of the event lists. */
  lemma EventsOnAppend(a: seq<Event>, b: seq<Event>, date: string)
    ensures EventsOn(a + b, date) == EventsOn(a, date) + EventsOn(b, date)
  {
    FilterAppend(a, b, (e: Event) => e.date == date);
  }

  /** `new Set(events.map(event => event.date))`. */
  function EventDates(events: seq<Event>): set<string>
  {
    set e | e in events :: e.date
  }

  /** A day is marked as having events exactly when its event list is not empty. */
  lemma MarkedIffListed(events: seq<Event>, date: string)
    ensures date in EventDates(events) <==> EventsOn(events, date) != []
  {
    if date in EventDates(events) {
      var e :| e in events && e.date == date;
      assert e in EventsOn(events, date);
    }
    if EventsOn(events, date) != [] {
      var e := EventsOn(events, date)[0];
      assert e in EventsOn(events, date);
    }
  }

  /** How one grid cell is drawn: whether it has events and whether it is the selected day. */
  datatype DayCell = DayCell(hasEvent: bool, selected: bool)

  class Calendar {
    /** `this.events`. */
    var events: seq<Event>
    /** The key of `this.selectedDate`. */
    var selectedDate: string
    /** Whether the owner passed a function as `onChange`. */
    const hasOnChange: bool
    /** The argument of every `onChange` call so far, oldest first. */
    var notifications: seq<seq<Event>>

    /** The calendar opens with no events and today selected. */
    constructor (hasOnChange: bool, today: string)
      ensures this.hasOnChange == hasOnChange
      ensures events == [] && selectedDate == today && notifications == []
    {
      this.hasOnChange := hasOnChange;
      events := [];
      selectedDate := today;
      notifications := [];
    }

    /** The submit handler of the event form. */
    method Submit(titleInput: string, descriptionInput: string)
      modifies this`events, this`notifications
      ensures Trim(titleInput) == "" || Trim(descriptionInput) == "" ==>
        events == old(events) && notifications == old(notifications)
      ensures Trim(titleInput) != "" && Trim(descriptionInput) != "" ==>
        && events == Upserted(old(events), selectedDate, Trim(titleInput), Trim(descriptionInput))
        && notifications == old(notifications) + (if hasOnChange then [events] else [])
    {
      var title := Trim(titleInput);
      var description := Trim(descriptionInput);
      if title == "" || description == "" {
        return;
      }
      var dateKey := selectedDate;
      events := OtherSlots(events, dateKey, title);
      events := events + [Event(dateKey, title, description)];
      if hasOnChange {
        notifications := notifications + [events];
      }
    }

    /** `setEvents`: stores an array as it is and anything else as `[]`; no `onChange`. */
    method SetEvents(value: Body<Event>)
      modifies this`events
      ensures events == if value.ArrayValue? then value.items else []
    {
      events := if value.ArrayValue? then value.items else [];
    }

    /** `selectDate` (and a click on a day cell). */
    method SelectDate(date: string)
      modifies this`selectedDate
      ensures selectedDate == date
    {
      selectedDate := date;
    }

    /** The list `renderEventList` shows: the events of the selected day. */
    function VisibleEvents(): (r: seq<Event>)
      reads this
      ensures forall e :: e in r <==> e in events && e.date == selectedDate
    {
      EventsOn(events, selectedDate)
    }

    /** `renderDays` over the grid's cell keys. */
    method RenderDays(cellDates: seq<string>) returns (cells: seq<DayCell>)
      ensures |cells| == |cellDates|
      ensures forall i :: 0 <= i < |cells| ==>
        && (cells[i].hasEvent <==> exists e :: e in events && e.date == cellDates[i])
        && (cells[i].selected <==> cellDates[i] == selectedDate)
    {
      var eventDates := EventDates(events);
      cells := [];
      for i := 0 to |cellDates|
        invariant |cells| == i
        invariant forall k :: 0 <= k < i ==>
          && (cells[k].hasEvent <==> cellDates[k] in eventDates)
          && (cells[k].selected <==> cellDates[k] == selectedDate)
      {
        cells := cells + [DayCell(cellDates[i] in eventDates, cellDates[i] == selectedDate)];
      }
    }
  }
}

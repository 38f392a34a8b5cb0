/**
 * The diary window's state: the selected date, the stored entries, and the drawing
 * settings the drawing window shares with it.
 */
module Diary {
  import Calendar
  import Entries
  import opened Tools

  class DiaryApp {
    var selectedDate: Calendar.Date
    var data: Entries.Store
    var brushColor: string
    var brushWidth: int
    var eraserWidth: int
    var currentTool: Tool

    ghost predicate Valid()
      reads this
    {
      Calendar.ValidDate(selectedDate)
    }

    /** The diary opens on today's date with the stored entries and the default
        drawing settings: black brush of width 5, eraser of width 20, the brush tool. */
    constructor (today: Calendar.Date, stored: Entries.Store)
      requires Calendar.ValidDate(today)
      ensures Valid()
      ensures selectedDate == today && data == stored
      ensures brushColor == "black" && brushWidth == 5 && eraserWidth == 20 && currentTool == Brush
    {
      selectedDate := today;
      data := stored;
      brushColor := "black";
      brushWidth := 5;
      eraserWidth := 20;
      currentTool := Brush;
    }

    /** `next_month`; `ok` is false when `datetime.replace` raised, and the date is then kept. */
    method NextMonth() returns (ok: bool)
      requires Valid()
      modifies this`selectedDate
      ensures Valid()
      ensures ok <==> Calendar.NextMonth(old(selectedDate)).Ok?
      ensures ok ==> selectedDate == Calendar.NextMonth(old(selectedDate)).value
      ensures !ok ==> selectedDate == old(selectedDate)
      ensures ok ==> selectedDate.day == old(selectedDate).day &&
                     Calendar.MonthNumber(selectedDate) == Calendar.MonthNumber(old(selectedDate)) + 1
    {
      var next;
      if selectedDate.month == 12 {
        next := Calendar.Replace(selectedDate.year + 1, 1, selectedDate.day);
      } else {
        next := Calendar.Replace(selectedDate.year, selectedDate.month + 1, selectedDate.day);
      }
      ok := next.Ok?;
      if ok {
        selectedDate := next.value;
      }
    }

    /** `prev_month`; `ok` is false when `datetime.replace` raised, and the date is then kept. */
    method PrevMonth() returns (ok: bool)
      requires Valid()
      modifies this`selectedDate
      ensures Valid()
      ensures ok <==> Calendar.PrevMonth(old(selectedDate)).Ok?
      ensures ok ==> selectedDate == Calendar.PrevMonth(old(selectedDate)).value
      ensures !ok ==> selectedDate == old(selectedDate)
      ensures ok ==> selectedDate.day == old(selectedDate).day &&
                     Calendar.MonthNumber(selectedDate) == Calendar.MonthNumber(old(selectedDate)) - 1
    {
      var prev;
      if selectedDate.month == 1 {
        prev := Calendar.Replace(selectedDate.year - 1, 12, selectedDate.day);
      } else {
        prev := Calendar.Replace(selectedDate.year, selectedDate.month - 1, selectedDate.day);
      }
      ok := prev.Ok?;
      if ok {
        selectedDate := prev.value;
      }
    }

    /** `select_date(day)`: the day of the month is replaced and that day's entry is
        loaded into the text box and the status selector. */
    method SelectDate(day: int) returns (ok: bool, text: string, status: string)
      requires Valid()
      modifies this`selectedDate
      ensures Valid()
      ensures ok <==> 1 <= day <= Calendar.DaysInMonth(old(selectedDate).year, old(selectedDate).month)
      ensures ok ==> selectedDate == old(selectedDate).(day := day)
      ensures !ok ==> selectedDate == old(selectedDate)
      ensures ok ==> (text, status) == Entries.LoadEntry(data, Calendar.DateKey(selectedDate))
    {
      text, status := "", "";
      var picked := Calendar.Replace(selectedDate.year, selectedDate.month, day);
      ok := picked.Ok?;
      if ok {
        selectedDate := picked.value;
        text, status := LoadEntry();
      }
    }

    /** `save_entry`: the text box's text and the selected status colour are stored under
        the selected date's key. */
    method SaveEntry(text: string, status: string)
      requires Valid()
      modifies this`data
      ensures data == Entries.SaveEntry(old(data), Calendar.DateKey(selectedDate), text, status)
    {
      var key := Calendar.DateKey(selectedDate);
      if key !in data {
        data := data[key := map[]];
      }
      data := data[key := data[key]["text" := text]];
      data := data[key := data[key]["color" := status]];
    }

    /** `load_image` in the picture window: a chosen file's path is stored under the
        selected date's key; an empty path (the dialog was cancelled) changes nothing. */
    method AttachImage(path: string)
      requires Valid()
      modifies this`data
      ensures data == if path == "" then old(data)
                      else Entries.AttachImage(old(data), Calendar.DateKey(selectedDate), path)
    {
      if path != "" {
        var key := Calendar.DateKey(selectedDate);
        if key !in data {
          data := data[key := map[]];
        }
        data := data[key := data[key]["image_path" := path]];
      }
    }

    /** `load_entry`: the text and status colour of the selected date's entry. */
    method LoadEntry() returns (text: string, status: string)
      requires Valid()
      ensures (text, status) == Entries.LoadEntry(data, Calendar.DateKey(selectedDate))
    {
      var key := Calendar.DateKey(selectedDate);
      var entry := if key in data then data[key] else map[];
      text := if "text" in entry then entry["text"] else "";
      status := if "color" in entry then entry["color"] else "";
    }
  }

  /** Saving an entry and loading the same date gives back what was saved. */
  method SaveThenLoad(app: DiaryApp, text: string, status: string) returns (loaded: (string, string))
    requires app.Valid()
    modifies app`data
    ensures loaded == (text, status)
  {
    app.SaveEntry(text, status);
    var t, s := app.LoadEntry();
    loaded := (t, s);
    Entries.LoadAfterSave(old(app.data), Calendar.DateKey(app.selectedDate), text, status);
  }
}

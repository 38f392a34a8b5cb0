/**
 * The diary's data: a dictionary from a date key to that day's entry, itself a
 * dictionary with the fields "text", "color" and, once a picture has been attached,
 * "image_path".
 */
module Entries {
  type Entry = map<string, string>
  type Store = map<string, Entry>

  /** `entry.get(field, "")`. */
  function Field(e: Entry, f: string): (v: string)
    ensures f !in e ==> v == ""
    ensures f in e ==> v == e[f]
  {
    if f in e then e[f] else ""
  }

  /** `save_entry` on the data: the day's entry is created when missing, then its text and
      status colour are set; its other fields and every other day are kept. */
  function SaveEntry(data: Store, key: string, text: string, status: string): (r: Store)
    ensures r.Keys == data.Keys + {key}
    ensures forall k :: k in data && k != key ==> r[k] == data[k]
    ensures r[key].Keys == (if key in data then data[key].Keys else {}) + {"text", "color"}
    ensures r[key]["text"] == text && r[key]["color"] == status
    ensures key in data ==>
              forall f :: f in data[key] && f != "text" && f != "color" ==> r[key][f] == data[key][f]
  {
    var entry := if key in data then data[key] else map[];
    data[key := entry["text" := text]["color" := status]]
  }

  /** `load_entry` on the data: the text and status colour shown for a day, empty when the
      day or the field is missing. */
  function LoadEntry(data: Store, key: string): (r: (string, string))
    ensures key !in data ==> r == ("", "")
    ensures key in data ==> r == (Field(data[key], "text"), Field(data[key], "color"))
  {
    var entry := if key in data then data[key] else map[];
    (Field(entry, "text"), Field(entry, "color"))
  }

  /** `load_image` on the data: a picture attached to a day is recorded under
      "image_path", creating the day's entry when missing; its other fields are kept. */
  function AttachImage(data: Store, key: string, path: string): (r: Store)
    ensures r.Keys == data.Keys + {key}
    ensures forall k :: k in data && k != key ==> r[k] == data[k]
    ensures r[key].Keys == (if key in data then data[key].Keys else {}) + {"image_path"}
    ensures r[key]["image_path"] == path
    ensures key in data ==> forall f :: f in data[key] && f != "image_path" ==> r[key][f] == data[key][f]
  {
    var entry := if key in data then data[key] else map[];
    data[key := entry["image_path" := path]]
  }

  /** Attaching a picture does not change the text and colour any day loads; in
      particular a day that only has a picture loads as empty text and no colour. */
  lemma AttachImageKeepsEntry(data: Store, key: string, day: string, path: string)
    ensures LoadEntry(AttachImage(data, key, path), day) == LoadEntry(data, day)
  {
    var r := AttachImage(data, key, path);
    if day == key {
      assert "text" in r[key] <==> key in data && "text" in data[key];
      assert "color" in r[key] <==> key in data && "color" in data[key];
    } else {
      assert day in r <==> day in data;
    }
  }

  /** What was saved for a day is what is loaded for it. */
  lemma LoadAfterSave(data: Store, key: string, text: string, status: string)
    ensures LoadEntry(SaveEntry(data, key, text, status), key) == (text, status)
  {
    var r := SaveEntry(data, key, text, status);
    assert "text" in r[key] && "color" in r[key];
  }

  /** Saving one day does not change what is loaded for another. */
  lemma SaveKeepsOtherDays(data: Store, key: string, other: string, text: string, status: string)
    requires other != key
    ensures LoadEntry(SaveEntry(data, key, text, status), other) == LoadEntry(data, other)
  {
    var r := SaveEntry(data, key, text, status);
    assert other in r <==> other in data;
  }

  /** Saving back what was loaded changes nothing once the day has both fields. */
  lemma SaveWhatWasLoaded(data: Store, key: string)
    requires key in data && "text" in data[key] && "color" in data[key]
    ensures var (text, status) := LoadEntry(data, key);
            SaveEntry(data, key, text, status) == data
  {
    var (text, status) := LoadEntry(data, key);
    var r := SaveEntry(data, key, text, status);
    assert r[key] == data[key];
  }

  /** Saving the same text and colour twice is the same as saving them once. */
  lemma SaveIdempotent(data: Store, key: string, text: string, status: string)
    ensures var once := SaveEntry(data, key, text, status);
            SaveEntry(once, key, text, status) == once
  {
    var once := SaveEntry(data, key, text, status);
    var twice := SaveEntry(once, key, text, status);
    assert twice[key] == once[key];
  }
}

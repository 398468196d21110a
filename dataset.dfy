/** The read-only JSON records the widgets work on. Every field is optional,
    as the source reads each one through optional chaining; a `null` array
    entry reads exactly like a record whose fields are all absent. */
module Dataset {
  import opened Base

  /** A set in the DJ collection. `setLabel` is the JSON `label` field. */
  datatype Item = Item(date: Option<string>, title: Option<string>, setLabel: Option<string>, url: Option<string>)

  /** A folder of the DJ collection. */
  datatype Folder = Folder(name: Option<string>, items: Option<seq<Item>>)

  /** `deejay_set_collection.json`; `generated_at` is never read. */
  datatype Collection = Collection(folders: Option<seq<Folder>>)
}

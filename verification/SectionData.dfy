/** Settings sections as they come from the loader: untyped trees of dicts, lists and scalars. */
module SectionData {

  /** `OtherKey` stands for every key that is neither a str nor an int (None, bool, float, ...). */
  datatype Key = StrKey(text: string) | IntKey(number: int) | OtherKey(id: nat)

  /** `Scalar` stands for every value that is neither a list nor a dict. */
  datatype Value = Scalar(id: nat) | VList(items: seq<Value>) | VDict(entries: seq<Entry>)

  datatype Entry = Entry(key: Key, value: Value)

  /** The entries of a dict, in insertion order. */
  type Section = seq<Entry>
}

/** The string-keyed option tables the fill and dropper tools expose. */
module Options {
  import opened Pixels

  /** The kinds of value the tool bar hands to `set_option`. */
  datatype OptionValue =
    | ColourValue(colour: Color)
    | IntValue(n: int)
    | RealValue(x: real)

  /** `set_option`: a key already in the table takes the new value; any
      other key is ignored, so the table never gains or loses a key. */
  function SetOption<V>(options: map<string, V>, key: string, value: V): (r: map<string, V>)
    ensures r.Keys == options.Keys
    ensures key in options ==> r[key] == value
    ensures forall k :: k in options && k != key ==> r[k] == options[k]
    ensures key !in options ==> r == options
  {
    if key in options then options[key := value] else options
  }
}

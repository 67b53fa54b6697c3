/**
 * Jackson's tree model, reduced to what the pattern codec reads and writes:
 * an object node is a field map, a document an array of object nodes.
 */
module Json {
  import opened Wrappers
  import opened Platform

  datatype JValue = JText(text: string) | JNumber(number: real) | JNull

  type Node = map<string, JValue>

  type Document = seq<Node>

  /** node[key], null (None) when the field is missing. */
  function Get(node: Node, key: string): Option<JValue>
  {
    if key in node then Some(node[key]) else None
  }

  /** JsonNode.floatValue(): the value of a number, 0 for anything else. */
  function FloatValue(v: JValue): (f: real)
    ensures v.JNumber? ==> f == v.number
    ensures v.JText? || v.JNull? ==> f == 0.0
  {
    if v.JNumber? then v.number else 0.0
  }

  /** JsonNode.textValue(): the text of a string node, null for anything else. */
  function TextValue(v: JValue): (t: Option<string>)
    ensures t.Some? <==> v.JText?
    ensures t.Some? ==> t.value == v.text
  {
    if v.JText? then Some(v.text) else None
  }

  /** JsonNode.asText(): the text of any value node; a JSON null reads "null". */
  function AsText(v: JValue, libs: Libs): (s: string)
    ensures v.JText? ==> s == v.text
    ensures v.JNumber? ==> s == libs.numberText(v.number)
    ensures v.JNull? ==> s == "null"
  {
    match v
    case JText(s) => s
    case JNumber(n) => libs.numberText(n)
    case JNull => "null"
  }

  /** JsonNode.asText(null): like AsText, except that a JSON null gives null. */
  function AsTextOrNull(v: JValue, libs: Libs): (t: Option<string>)
    ensures t.None? <==> v.JNull?
    ensures t.Some? ==> t.value == AsText(v, libs)
  {
    if v.JNull? then None else Some(AsText(v, libs))
  }
}

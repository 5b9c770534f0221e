/**
  The document tree of tinyxml2, as values.
 */
module XmlTree {
  datatype Attribute = Attribute(name: string, value: string)

  /** `closed` is _closingType == CLOSED: the element was written as a single tag. */
  datatype Node =
    | Element(name: string, attributes: seq<Attribute>, children: seq<Node>, closed: bool)
    | Text(value: string, cdata: bool)
    | Comment(value: string)
    | Declaration(value: string)
    | Unknown(value: string)

  /**
    The error codes of the document. NULL_DEREFERENCE is none of tinyxml2's: it stands for a parse that
    does not come back, because GetStr followed a null pointer.
   */
  datatype XmlError =
    | XML_NO_ERROR
    | XML_ERROR_PARSING_ELEMENT
    | XML_ERROR_PARSING_ATTRIBUTE
    | XML_ERROR_PARSING_TEXT
    | XML_ERROR_PARSING_CDATA
    | XML_ERROR_PARSING_COMMENT
    | XML_ERROR_PARSING_DECLARATION
    | XML_ERROR_PARSING_UNKNOWN
    | XML_ERROR_EMPTY_DOCUMENT
    | XML_ERROR_MISMATCHED_ELEMENT
    | XML_ERROR_PARSING
    | NULL_DEREFERENCE

  /** The UTF-8 byte order mark. */
  const BOM: string := ['\U{EF}', '\U{BB}', '\U{BF}']

  predicate HasAttribute(attributes: seq<Attribute>, name: string) {
    exists i | 0 <= i < |attributes| :: attributes[i].name == name
  }

  /** The first attribute of that name, or the number of attributes. */
  function AttributeIndex(attributes: seq<Attribute>, name: string): (i: nat)
    ensures i <= |attributes|
    ensures i < |attributes| ==> attributes[i].name == name
    ensures forall j | 0 <= j < i :: attributes[j].name != name
  {
    if attributes == [] || attributes[0].name == name then 0 else 1 + AttributeIndex(attributes[1..], name)
  }

  predicate DistinctNames(attributes: seq<Attribute>) {
    forall i, j | 0 <= i < j < |attributes| :: attributes[i].name != attributes[j].name
  }
}

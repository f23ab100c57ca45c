/** The token builders of the HTML tokenizer (section 13.2.5 of the WHATWG
    HTML Living Standard): attributes, comments, DOCTYPEs and tags, the
    tokens that carry copies of them, and the tokenizer's states. */
module HtmlDetail {
  import opened Wrappers

  /** An attribute: a name and a value. */
  datatype Attribute = Attribute(name: string, value: string)

  /** `Attribute::new`: empty name and value. */
  function NewAttribute(): (a: Attribute)
    ensures a.name == [] && a.value == []
  {
    Attribute([], [])
  }

  /** A comment's text. */
  datatype CommentData = CommentData(value: string)

  /** `Comment::new`: an empty comment. */
  function NewComment(): (c: CommentData)
    ensures c.value == []
  {
    CommentData([])
  }

  /** A copy of a DOCTYPE's fields, as a clone hands it out. */
  datatype DoctypeData = DoctypeData(forceQuirks: bool, name: Option<string>, publicId: Option<string>, systemId: Option<string>)

  /** A copy of a tag's fields, as a clone hands it out. */
  datatype TagData = TagData(name: string, selfClosing: bool, isEndTag: bool, attributes: Option<seq<Attribute>>)

  /** The value `Tag::new(end_tag)` builds: an empty name, not
      self-closing, no attribute list, and an end tag exactly when asked. */
  function NewTag(endTag: bool): (t: TagData)
    ensures t.name == [] && !t.selfClosing && t.isEndTag == endTag && t.attributes.None?
  {
    TagData([], false, endTag, None)
  }

  /** The tokens handed to the tree builder. The unused attribute token is
      not part of this model. */
  datatype Token =
    | Character(c: char)
    | Comment(comment: CommentData)
    | Doctype(doctype: DoctypeData)
    | Eof
    | Tag(tag: TagData)

  // ---------------------------------------------------------------------
  // What each builder operation does to a tag or DOCTYPE, on values

  /** `Some(s)` extended by `c`, with `None` read as the empty string. */
  function AppendToOptional(o: Option<string>, c: char): (r: Option<string>)
    ensures r.Some? && |r.value| >= 1 && r.value[|r.value| - 1] == c
    ensures o.None? ==> r == Some([c])
    ensures o.Some? ==> r == Some(o.value + [c])
  {
    match o
    case None => Some([c])
    case Some(s) => Some(s + [c])
  }

  /** The tag with one more, empty, attribute at the end of its list. */
  function WithNewAttribute(t: TagData): (r: TagData)
    ensures r.name == t.name && r.selfClosing == t.selfClosing && r.isEndTag == t.isEndTag
    ensures r.attributes.Some? && |r.attributes.value| >= 1
    ensures r.attributes.value[..|r.attributes.value| - 1] == (if t.attributes.Some? then t.attributes.value else [])
    ensures r.attributes.value[|r.attributes.value| - 1] == NewAttribute()
  {
    var list := if t.attributes.Some? then t.attributes.value else [];
    t.(attributes := Some(list + [NewAttribute()]))
  }

  /** The tag has a current attribute: its list exists and is not empty. */
  predicate HasCurrentAttribute(t: TagData) {
    t.attributes.Some? && |t.attributes.value| > 0
  }

  /** The tag with its last attribute replaced by `f(last)`, on the only
      list the program allows, a non-empty one. */
  function UpdateLast(list: seq<Attribute>, a: Attribute): (r: seq<Attribute>)
    requires |list| > 0
    ensures |r| == |list| && r[..|r| - 1] == list[..|list| - 1] && r[|r| - 1] == a
  {
    list[..|list| - 1] + [a]
  }

  /** The tag with `c` appended to the name of its last attribute. */
  function WithAttrNameChar(t: TagData, c: char): (r: TagData)
    requires HasCurrentAttribute(t)
    ensures r.name == t.name && r.selfClosing == t.selfClosing && r.isEndTag == t.isEndTag
    ensures HasCurrentAttribute(r) && |r.attributes.value| == |t.attributes.value|
    ensures var n := |t.attributes.value| - 1;
      && r.attributes.value[..n] == t.attributes.value[..n]
      && r.attributes.value[n].name == t.attributes.value[n].name + [c]
      && r.attributes.value[n].value == t.attributes.value[n].value
  {
    var list := t.attributes.value;
    var last := list[|list| - 1];
    t.(attributes := Some(UpdateLast(list, last.(name := last.name + [c]))))
  }

  /** The tag with `s` appended to the value of its last attribute. */
  function WithAttrValueString(t: TagData, s: string): (r: TagData)
    requires HasCurrentAttribute(t)
    ensures r.name == t.name && r.selfClosing == t.selfClosing && r.isEndTag == t.isEndTag
    ensures HasCurrentAttribute(r) && |r.attributes.value| == |t.attributes.value|
    ensures var n := |t.attributes.value| - 1;
      && r.attributes.value[..n] == t.attributes.value[..n]
      && r.attributes.value[n].name == t.attributes.value[n].name
      && r.attributes.value[n].value == t.attributes.value[n].value + s
  {
    var list := t.attributes.value;
    var last := list[|list| - 1];
    t.(attributes := Some(UpdateLast(list, last.(value := last.value + s))))
  }

  /** Appending the characters of `s` one by one. */
  function WithAttrValueChars(t: TagData, s: string): (r: TagData)
    requires HasCurrentAttribute(t)
    ensures HasCurrentAttribute(r)
    decreases |s|
  {
    if s == [] then t else WithAttrValueChars(WithAttrValueString(t, [s[0]]), s[1..])
  }

  /** Appending a string to the current attribute's value is appending its
      characters one at a time. */
  lemma {:induction false} AttrValueStringIsCharByChar(t: TagData, s: string)
    requires HasCurrentAttribute(t)
    ensures WithAttrValueChars(t, s) == WithAttrValueString(t, s)
    decreases |s|
  {
    if s != [] {
      var t1 := WithAttrValueString(t, [s[0]]);
      AttrValueStringIsCharByChar(t1, s[1..]);
      var list := t.attributes.value;
      var last := list[|list| - 1];
      assert last.value + [s[0]] + s[1..] == last.value + s;
      assert t1.attributes.value[..|list| - 1] == list[..|list| - 1];
    } else {
      var list := t.attributes.value;
      var last := list[|list| - 1];
      assert last.value + [] == last.value;
      assert list[..|list| - 1] + [last] == list;
    }
  }

  /** Setting the self-closing flag twice is setting it once. */
  lemma SelfClosingIdempotent(t: TagData)
    ensures t.(selfClosing := true).(selfClosing := true) == t.(selfClosing := true)
    ensures t.(selfClosing := true).selfClosing
  {
  }

  // ---------------------------------------------------------------------
  // The builders, which the tokenizer updates in place

  class Doctype {
    var forceQuirks: bool
    var name: Option<string>
    var publicId: Option<string>
    var systemId: Option<string>

    /** The fields as a value. */
    function Data(): DoctypeData
      reads this
    {
      DoctypeData(forceQuirks, name, publicId, systemId)
    }

    /** `Doctype::new`: quirks off, no name and no identifiers. */
    constructor()
      ensures Data() == DoctypeData(false, None, None, None)
    {
      forceQuirks := false;
      name := None;
      publicId := None;
      systemId := None;
    }

    method AppendToName(c: char)
      modifies this
      ensures Data() == old(Data()).(name := AppendToOptional(old(name), c))
    {
      if name.None? {
        name := Some([]);
        assert [] + [c] == [c];
      }
      name := Some(name.value + [c]);
    }

    method AppendToPublicId(c: char)
      modifies this
      ensures Data() == old(Data()).(publicId := AppendToOptional(old(publicId), c))
    {
      if publicId.None? {
        publicId := Some([]);
        assert [] + [c] == [c];
      }
      publicId := Some(publicId.value + [c]);
    }

    method AppendToSystemId(c: char)
      modifies this
      ensures Data() == old(Data()).(systemId := AppendToOptional(old(systemId), c))
    {
      if systemId.None? {
        systemId := Some([]);
        assert [] + [c] == [c];
      }
      systemId := Some(systemId.value + [c]);
    }

    /** `clone`: a copy of every field. */
    method Clone() returns (d: DoctypeData)
      ensures d.forceQuirks == forceQuirks && d.name == name
      ensures d.publicId == publicId && d.systemId == systemId
    {
      d := DoctypeData(forceQuirks, name, publicId, systemId);
    }
  }

  class Tag {
    var name: string
    var selfClosing: bool
    var isEndTag: bool
    var attributes: Option<seq<Attribute>>

    /** The fields as a value. */
    function Data(): TagData
      reads this
    {
      TagData(name, selfClosing, isEndTag, attributes)
    }

    /** `Tag::new(end_tag)`: an empty name, not self-closing, no attribute
        list, and an end tag exactly when asked for one. */
    constructor(endTag: bool)
      ensures Data() == NewTag(endTag)
    {
      name := [];
      selfClosing := false;
      isEndTag := endTag;
      attributes := None;
    }

    method CreateAttribute()
      modifies this
      ensures Data() == WithNewAttribute(old(Data()))
    {
      if attributes.None? {
        attributes := Some([]);
      }
      attributes := Some(attributes.value + [NewAttribute()]);
    }

    /** Appends to the last attribute's name; the program unwraps both the
        list and its last element, so there must be one. */
    method AppendToCurAttrName(c: char)
      requires HasCurrentAttribute(Data())
      modifies this
      ensures Data() == WithAttrNameChar(old(Data()), c)
    {
      var list := attributes.value;
      var last := list[|list| - 1];
      attributes := Some(list[..|list| - 1] + [last.(name := last.name + [c])]);
    }

    method AppendToCurAttrValue(c: char)
      requires HasCurrentAttribute(Data())
      modifies this
      ensures Data() == WithAttrValueString(old(Data()), [c])
    {
      var list := attributes.value;
      var last := list[|list| - 1];
      attributes := Some(list[..|list| - 1] + [last.(value := last.value + [c])]);
    }

    method AppendToCurAttrValueStr(chars: string)
      requires HasCurrentAttribute(Data())
      modifies this
      ensures Data() == WithAttrValueString(old(Data()), chars)
      ensures Data() == WithAttrValueChars(old(Data()), chars)
    {
      AttrValueStringIsCharByChar(Data(), chars);
      var list := attributes.value;
      var last := list[|list| - 1];
      attributes := Some(list[..|list| - 1] + [last.(value := last.value + chars)]);
    }

    method SetSelfClosingFlag()
      modifies this
      ensures Data() == old(Data()).(selfClosing := true)
    {
      selfClosing := true;
    }

    /** `clone`: a copy of every field. */
    method Clone() returns (d: TagData)
      ensures d.name == name && d.selfClosing == selfClosing
      ensures d.isEndTag == isEndTag && d.attributes == attributes
    {
      d := TagData(name, selfClosing, isEndTag, attributes);
    }
  }

  // ---------------------------------------------------------------------
  // The tokenizer's states

  datatype State =
    | Data | Rcdata | Rawtext | ScriptData | Plaintext | TagOpen | EndTagOpen | TagName
    | RcdataLessThanSign | RcdataEndTagOpen | RcdataEndTagName
    | RawtextLessThanSign | RawtextEndTagOpen | RawtextEndTagName
    | ScriptDataLessThanSign | ScriptDataEndTagOpen | ScriptDataEndTagName
    | ScriptDataEscapeStart | ScriptDataEscapeStartDash | ScriptDataEscaped
    | ScriptDataEscapedDash | ScriptDataEscapedDashDash | ScriptDataEscapedLessThanSign
    | ScriptDataEscapedEndTagOpen | ScriptDataEscapedEndTagName
    | ScriptDataDoubleEscapeStart | ScriptDataDoubleEscaped | ScriptDataDoubleEscapedDash
    | ScriptDataDoubleEscapedDashDash | ScriptDataDoubleEscapedLessThanSign | ScriptDataDoubleEscapeEnd
    | BeforeAttributeName | AttributeName | AfterAttributeName | BeforeAttributeValue
    | AttributeValueDoubleQuoted | AttributeValueSingleQuoted | AttributeValueUnquoted
    | AfterAttributeValueQuoted
    | SelfClosingStartTag | BogusComment | MarkupDeclarationOpen
    | CommentStart | CommentStartDash | CommentState | CommentLessThanSign | CommentLessThanSignBang
    | CommentLessThanSignBangDash | CommentLessThanSignBangDashDash | CommentEndDash | CommentEnd
    | CommentEndBang
    | DoctypeState | BeforeDoctypeName | DoctypeName | AfterDoctypeName | AfterDoctypePublicKeyword
    | BeforeDoctypePublicIdentifier | DoctypePublicIdentifierDoubleQuoted
    | DoctypePublicIdentifierSingleQuoted | AfterDoctypePublicIdentifier
    | BetweenDoctypePublicAndSystemIdentifiers | AfterDoctypeSystemKeyword
    | BeforeDoctypeSystemIdentifier | DoctypeSystemIdentifierDoubleQuoted
    | DoctypeSystemIdentifierSingleQuoted | AfterDoctypeSystemIdentifier | BogusDoctype
    | CdataSection | CdataSectionBracket | CdataSectionEnd
    | CharacterReference | NamedCharacterReference | AmbiguousAmpersand | NumericCharacterReference
    | HexadecimalCharacterReferenceStart | DecimalCharacterReferenceStart
    | HexadecimalCharacterReference | DecimalCharacterReference | NumericCharacterReferenceEnd
}

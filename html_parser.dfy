/** The tree-construction helpers of the HTML parser: the tag tests used by
    the insertion modes, and "reset the insertion mode appropriately"
    (section 13.2.4.1 of the HTML Standard). Element handles are reduced to
    their expanded names. */
module HtmlParser {
  import opened Wrappers
  import opened HtmlDetail
  import Namespace

  /** The insertion modes of the tree builder. */
  datatype InsertionMode =
    | Initial | BeforeHtml | BeforeHead | InHead | InHeadNoscript | AfterHead
    | InBody | Text | InTable | InTableText | InCaption | InColumnGroup
    | InTableBody | InRow | InCell | InSelect | InSelectInTable | InTemplate
    | AfterBody | InFrameset | AfterFrameset | AfterAfterBody | AfterAfterFrameset

  datatype EncodingCertainty = Certain(encoding: string) | Irrelevant | Tentative(encoding: string)

  /** An element's namespace and local name. */
  datatype ExpandedName = ExpandedName(ns: Namespace.Namespace, local: string)

  // ---------------------------------------------------------------------
  // Tag tests

  predicate StartTagWithName(t: TagData, name: string) {
    t.name == name && !t.isEndTag
  }

  predicate EndTagWithName(t: TagData, name: string) {
    t.name == name && t.isEndTag
  }

  /** `start_tag_with_names`: an early-return search of the list. */
  method StartTagWithNames(t: TagData, names: seq<string>) returns (r: bool)
    ensures r <==> !t.isEndTag && t.name in names
    ensures r <==> exists i :: 0 <= i < |names| && StartTagWithName(t, names[i])
  {
    if t.isEndTag {
      return false;
    }
    for i := 0 to |names|
      invariant t.name !in names[..i]
    {
      if t.name == names[i] {
        return true;
      }
    }
    assert names[..|names|] == names;
    return false;
  }

  /** `end_tag_with_names`: an early-return search of the list. */
  method EndTagWithNames(t: TagData, names: seq<string>) returns (r: bool)
    ensures r <==> t.isEndTag && t.name in names
    ensures r <==> exists i :: 0 <= i < |names| && EndTagWithName(t, names[i])
  {
    if !t.isEndTag {
      return false;
    }
    for i := 0 to |names|
      invariant t.name !in names[..i]
    {
      if t.name == names[i] {
        return true;
      }
    }
    assert names[..|names|] == names;
    return false;
  }

  /** A tag is never both a start tag and an end tag of a name, and it is
      one of the two for its own name. */
  lemma StartOrEndTag(t: TagData, name: string)
    ensures !(StartTagWithName(t, name) && EndTagWithName(t, name))
    ensures t.name == name <==> StartTagWithName(t, name) || EndTagWithName(t, name)
  {
  }

  /** `html_elem_named`: an HTML-namespace element with that local name. */
  function HtmlElemNamed(elem: ExpandedName, name: string): (r: bool)
    ensures r <==> elem.ns.AsStr() == "http://www.w3.org/1999/xhtml" && elem.local == name
  {
    elem.ns == Namespace.Html && elem.local == name
  }

  // ---------------------------------------------------------------------
  // Reset the insertion mode appropriately

  /** The ancestors test for `select`: scan the entries below `j`, top
      down, for a template or a table. */
  function SelectScan(stack: seq<ExpandedName>, j: nat): (r: InsertionMode)
    requires j <= |stack|
    ensures r == InSelect || r == InSelectInTable
    decreases j
  {
    if j == 0 then InSelect
    else if HtmlElemNamed(stack[j - 1], "template") then InSelect
    else if HtmlElemNamed(stack[j - 1], "table") then InSelectInTable
    else SelectScan(stack, j - 1)
  }

  /** What one entry decides: nothing (the scan goes on), a mode, or the
      panic of `unwrap` on an empty list of template insertion modes. */
  datatype Decision = Continue | Decided(mode: Option<InsertionMode>)

  /** The node the scan looks at for index `i`: the context element replaces
      the bottom entry when there is one. */
  function NodeAt(stack: seq<ExpandedName>, context: Option<ExpandedName>, i: nat): (node: ExpandedName)
    requires i < |stack|
    ensures node == stack[i] || (i == 0 && context == Some(node))
    ensures i > 0 || context.None? ==> node == stack[i]
  {
    if i == 0 && context.Some? then context.value else stack[i]
  }

  /** The decision of the entry at index `i`. */
  function Decide(stack: seq<ExpandedName>, context: Option<ExpandedName>, hasHead: bool,
                  templateModes: seq<InsertionMode>, i: nat): (d: Decision)
    requires i < |stack|
    ensures d == Decided(None) ==> templateModes == [] && NodeAt(stack, context, i) == ExpandedName(Namespace.Html, "template")
  {
    var node := NodeAt(stack, context, i);
    var last := i == 0;
    if node.ns != Namespace.Html then Continue
    else
      var name := node.local;
      if name == "select" then Decided(Some(SelectScan(stack, i)))
      else if name == "td" || name == "th" then (if !last then Decided(Some(InCell)) else Continue)
      else if name == "tr" then Decided(Some(InRow))
      else if name == "tbody" || name == "thead" || name == "tfoot" then Decided(Some(InTableBody))
      else if name == "caption" then Decided(Some(InCaption))
      else if name == "colgroup" then Decided(Some(InColumnGroup))
      else if name == "table" then Decided(Some(InTable))
      else if name == "template" then
        Decided(if templateModes == [] then None else Some(templateModes[|templateModes| - 1]))
      else if name == "head" then (if !last then Decided(Some(InHead)) else Continue)
      else if name == "body" then Decided(Some(InBody))
      else if name == "frameset" then Decided(Some(InFrameset))
      else if name == "html" then Decided(Some(if hasHead then AfterHead else BeforeHead))
      else Continue
  }

  /** The scan over the entries below `k`, from the top down; `None` is the
      panic. */
  function ResetScan(stack: seq<ExpandedName>, context: Option<ExpandedName>, hasHead: bool,
                     templateModes: seq<InsertionMode>, k: nat): (r: Option<InsertionMode>)
    requires k <= |stack|
    ensures r.None? ==> templateModes == []
    decreases k
  {
    if k == 0 then Some(InBody)
    else
      match Decide(stack, context, hasHead, templateModes, k - 1)
      case Continue => ResetScan(stack, context, hasHead, templateModes, k - 1)
      case Decided(mode) => mode
  }

  /** The whole algorithm. */
  function ResetSpec(stack: seq<ExpandedName>, context: Option<ExpandedName>, hasHead: bool,
                     templateModes: seq<InsertionMode>): (r: Option<InsertionMode>)
    ensures r.None? ==> templateModes == []
  {
    ResetScan(stack, context, hasHead, templateModes, |stack|)
  }

  /** The result is decided by the topmost entry that decides anything. */
  lemma {:induction false} ResetScanIsTopmostDecision(stack: seq<ExpandedName>, context: Option<ExpandedName>,
                                                      hasHead: bool, templateModes: seq<InsertionMode>, k: nat, i: nat)
    requires i < k <= |stack|
    requires Decide(stack, context, hasHead, templateModes, i).Decided?
    requires forall j :: i < j < k ==> Decide(stack, context, hasHead, templateModes, j).Continue?
    ensures ResetScan(stack, context, hasHead, templateModes, k) == Decide(stack, context, hasHead, templateModes, i).mode
    decreases k
  {
    if k - 1 != i {
      assert Decide(stack, context, hasHead, templateModes, k - 1).Continue?;
      ResetScanIsTopmostDecision(stack, context, hasHead, templateModes, k - 1, i);
    }
  }

  /** With no entry that decides anything, and so in particular on an empty
      stack, the result is "in body". */
  lemma {:induction false} NoDecisionGivesInBody(stack: seq<ExpandedName>, context: Option<ExpandedName>,
                                                 hasHead: bool, templateModes: seq<InsertionMode>, k: nat)
    requires k <= |stack|
    requires forall j :: 0 <= j < k ==> Decide(stack, context, hasHead, templateModes, j).Continue?
    ensures ResetScan(stack, context, hasHead, templateModes, k) == Some(InBody)
    decreases k
  {
    if k > 0 {
      assert Decide(stack, context, hasHead, templateModes, k - 1).Continue?;
      NoDecisionGivesInBody(stack, context, hasHead, templateModes, k - 1);
    }
  }

  /** Entries outside the HTML namespace never decide. */
  lemma ForeignEntriesContinue(stack: seq<ExpandedName>, context: Option<ExpandedName>, hasHead: bool,
                               templateModes: seq<InsertionMode>, i: nat)
    requires i < |stack|
    requires NodeAt(stack, context, i).ns != Namespace.Html
    ensures Decide(stack, context, hasHead, templateModes, i) == Continue
  {
  }

  /** The `select` scan: a table with no template above it (below the
      select) gives "in select in table"; otherwise "in select". */
  lemma {:induction false} SelectScanFindsTable(stack: seq<ExpandedName>, j: nat)
    requires j <= |stack|
    ensures SelectScan(stack, j) == InSelectInTable <==>
      exists t :: 0 <= t < j && HtmlElemNamed(stack[t], "table") &&
        forall u :: t < u < j ==> !HtmlElemNamed(stack[u], "template")
    decreases j
  {
    if j > 0 {
      SelectScanFindsTable(stack, j - 1);
      if HtmlElemNamed(stack[j - 1], "template") {
        forall t | 0 <= t < j - 1 && HtmlElemNamed(stack[t], "table")
          ensures !forall u :: t < u < j ==> !HtmlElemNamed(stack[u], "template")
        {
          assert t < j - 1 < j;
        }
      } else if HtmlElemNamed(stack[j - 1], "table") {
        var t := j - 1;
        assert 0 <= t < j && HtmlElemNamed(stack[t], "table");
      } else {
        if SelectScan(stack, j) == InSelectInTable {
          var t :| 0 <= t < j - 1 && HtmlElemNamed(stack[t], "table") &&
            forall u :: t < u < j - 1 ==> !HtmlElemNamed(stack[u], "template");
          assert forall u :: t < u < j ==> !HtmlElemNamed(stack[u], "template");
        }
      }
    }
  }

  /** `td`, `th` and `head` decide only above the bottom entry; at the
      bottom they are passed over. */
  lemma CellAndHeadOnlyAboveBottom(stack: seq<ExpandedName>, context: Option<ExpandedName>, hasHead: bool,
                                   templateModes: seq<InsertionMode>, i: nat)
    requires i < |stack|
    requires var n := NodeAt(stack, context, i); n.ns == Namespace.Html && n.local in ["td", "th", "head"]
    ensures i == 0 <==> Decide(stack, context, hasHead, templateModes, i) == Continue
    ensures i > 0 ==> (Decide(stack, context, hasHead, templateModes, i) ==
      Decided(Some(if NodeAt(stack, context, i).local == "head" then InHead else InCell)))
  {
    var n := NodeAt(stack, context, i);
    assert n.local == "td" || n.local == "th" || n.local == "head";
  }

  /** `html` gives "before head" exactly when there is no head element, and
      `template` the last template insertion mode, panicking when there is
      none. */
  lemma HtmlAndTemplateEntries(stack: seq<ExpandedName>, context: Option<ExpandedName>, hasHead: bool,
                               templateModes: seq<InsertionMode>, i: nat)
    requires i < |stack|
    requires NodeAt(stack, context, i).ns == Namespace.Html
    ensures NodeAt(stack, context, i).local == "html" ==>
      (Decide(stack, context, hasHead, templateModes, i) == Decided(Some(BeforeHead)) <==> !hasHead)
    ensures NodeAt(stack, context, i).local == "template" ==>
      (Decide(stack, context, hasHead, templateModes, i) == Decided(None) <==> templateModes == [])
  {
  }

  /** Entries that do not decide are passed over: the scan from `k` gives
      what the scan from `j` gives when every entry in between continues. */
  lemma {:induction false} ResetScanSkipsContinuing(stack: seq<ExpandedName>, context: Option<ExpandedName>,
                                                    hasHead: bool, templateModes: seq<InsertionMode>, j: nat, k: nat)
    requires j <= k <= |stack|
    requires forall i :: j <= i < k ==> Decide(stack, context, hasHead, templateModes, i).Continue?
    ensures ResetScan(stack, context, hasHead, templateModes, k) == ResetScan(stack, context, hasHead, templateModes, j)
    decreases k
  {
    if k > j {
      assert Decide(stack, context, hasHead, templateModes, k - 1).Continue?;
      ResetScanSkipsContinuing(stack, context, hasHead, templateModes, j, k - 1);
    }
  }

  /** The context element stands in for the bottom entry of any stack: the
      bottom entry decides as the context element alone would, every entry
      above it decides as it does without a context, and when those all
      pass, the result is that of a stack holding only the context element.
      The `select` scan still looks at the open entries themselves. */
  lemma ContextReplacesBottom(stack: seq<ExpandedName>, ctx: ExpandedName, hasHead: bool,
                              templateModes: seq<InsertionMode>)
    requires |stack| > 0
    ensures Decide(stack, Some(ctx), hasHead, templateModes, 0) == Decide([ctx], None, hasHead, templateModes, 0)
    ensures forall i :: 0 < i < |stack| ==>
      Decide(stack, Some(ctx), hasHead, templateModes, i) == Decide(stack, None, hasHead, templateModes, i)
    ensures (forall i :: 0 < i < |stack| ==> Decide(stack, None, hasHead, templateModes, i).Continue?) ==>
      ResetSpec(stack, Some(ctx), hasHead, templateModes) == ResetSpec([ctx], None, hasHead, templateModes)
  {
    if forall i :: 0 < i < |stack| ==> Decide(stack, None, hasHead, templateModes, i).Continue? {
      forall i | 1 <= i < |stack|
        ensures Decide(stack, Some(ctx), hasHead, templateModes, i).Continue?
      {
        assert Decide(stack, Some(ctx), hasHead, templateModes, i) == Decide(stack, None, hasHead, templateModes, i);
      }
      ResetScanSkipsContinuing(stack, Some(ctx), hasHead, templateModes, 1, |stack|);
    }
  }

  /** For instance, with a single `p` open, a `td` context is passed over
      (it is the bottom entry) and gives "in body", a `tr` context gives
      "in row", and no context gives "in body". */
  lemma ContextAtBottomExamples(hasHead: bool)
    ensures var stack := [ExpandedName(Namespace.Html, "p")];
      ResetSpec(stack, Some(ExpandedName(Namespace.Html, "td")), hasHead, []) == Some(InBody) &&
      ResetSpec(stack, Some(ExpandedName(Namespace.Html, "tr")), hasHead, []) == Some(InRow) &&
      ResetSpec(stack, None, hasHead, []) == Some(InBody)
  {
    var stack := [ExpandedName(Namespace.Html, "p")];
    assert Decide(stack, Some(ExpandedName(Namespace.Html, "td")), hasHead, [], 0) == Continue;
    assert Decide(stack, Some(ExpandedName(Namespace.Html, "tr")), hasHead, [], 0) == Decided(Some(InRow));
    assert Decide(stack, None, hasHead, [], 0) == Continue;
    var td := Some(ExpandedName(Namespace.Html, "td"));
    assert ResetSpec(stack, td, hasHead, []) == ResetScan(stack, td, hasHead, [], 1);
    assert ResetScan(stack, td, hasHead, [], 0) == Some(InBody);
    assert ResetSpec(stack, None, hasHead, []) == ResetScan(stack, None, hasHead, [], 1);
  }

  // ---------------------------------------------------------------------
  // The parser

  class HtmlParser {
    var characterEncoding: Option<EncodingCertainty>
    var insertionMode: InsertionMode
    var origInsertionMode: Option<InsertionMode>
    var openElements: seq<ExpandedName>
    var activeFormattingElements: seq<ExpandedName>
    var headElem: Option<ExpandedName>
    var formElem: Option<ExpandedName>
    var scripting: bool
    var framesetOk: bool
    var templateInsertionModes: seq<InsertionMode>
    var fosterParenting: bool
    var scriptNestingLevel: nat
    var parserPauseFlag: bool
    var contextElem: Option<ExpandedName>

    /** `HtmlParser::new`. */
    constructor()
      ensures characterEncoding == None && insertionMode == Initial && origInsertionMode == None
      ensures openElements == [] && activeFormattingElements == [] && headElem == None && formElem == None
      ensures scripting && framesetOk && templateInsertionModes == [] && !fosterParenting
      ensures scriptNestingLevel == 0 && !parserPauseFlag && contextElem == None
    {
      characterEncoding := None;
      insertionMode := Initial;
      origInsertionMode := None;
      openElements := [];
      activeFormattingElements := [];
      headElem := None;
      formElem := None;
      scripting := true;
      framesetOk := true;
      templateInsertionModes := [];
      fosterParenting := false;
      scriptNestingLevel := 0;
      parserPauseFlag := false;
      contextElem := None;
    }

    /** The ancestors loop for a `select` at index `i`. */
    method SelectModeBelow(i: nat) returns (mode: InsertionMode)
      requires i <= |openElements|
      ensures mode == SelectScan(openElements, i)
    {
      var j: nat := i;
      while j > 0
        invariant j <= i
        invariant SelectScan(openElements, i) == SelectScan(openElements, j)
      {
        j := j - 1;
        var ancestor := openElements[j];
        if HtmlElemNamed(ancestor, "template") {
          return InSelect;
        } else if HtmlElemNamed(ancestor, "table") {
          return InSelectInTable;
        }
      }
      return InSelect;
    }

    /** `reset_insertion_mode`: the reverse loop over the stack of open
        elements. `None` is the panic of `unwrap` on an empty list of
        template insertion modes. */
    method ResetInsertionMode() returns (mode: Option<InsertionMode>)
      ensures mode == ResetSpec(openElements, contextElem, headElem.Some?, templateInsertionModes)
    {
      var i: nat := |openElements|;
      while i > 0
        invariant i <= |openElements|
        invariant ResetSpec(openElements, contextElem, headElem.Some?, templateInsertionModes) ==
          ResetScan(openElements, contextElem, headElem.Some?, templateInsertionModes, i)
      {
        i := i - 1;
        var last := i == 0;
        var node := openElements[i];
        if last && contextElem.Some? {
          node := contextElem.value;
        }
        if node.ns != Namespace.Html {
          continue;
        }
        var name := node.local;
        if name == "select" {
          var m := SelectModeBelow(i);
          return Some(m);
        } else if name == "td" || name == "th" {
          if !last {
            return Some(InCell);
          }
        } else if name == "tr" {
          return Some(InRow);
        } else if name == "tbody" || name == "thead" || name == "tfoot" {
          return Some(InTableBody);
        } else if name == "caption" {
          return Some(InCaption);
        } else if name == "colgroup" {
          return Some(InColumnGroup);
        } else if name == "table" {
          return Some(InTable);
        } else if name == "template" {
          if templateInsertionModes == [] {
            return None;
          }
          return Some(templateInsertionModes[|templateInsertionModes| - 1]);
        } else if name == "head" {
          if !last {
            return Some(InHead);
          }
        } else if name == "body" {
          return Some(InBody);
        } else if name == "frameset" {
          return Some(InFrameset);
        } else if name == "html" {
          return Some(if headElem.None? then BeforeHead else AfterHead);
        }
      }
      return Some(InBody);
    }
  }
}

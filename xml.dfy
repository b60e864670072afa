/**
 * The PHP item under the cursor in a Magento XML file: a class named in
 * an attribute value or a text node, a class together with a method
 * (`class="..." method="..."` on one tag), or a class constant
 * (`Vendor\Class::NAME`).
 */
module Xml {
  import opened Options
  import opened Text
  import opened Ts
  import opened M2

  /**
   * A node captured first by a query match: its kind, its text, its span
   * and its named children (for a tag, its attributes; for an attribute,
   * its name and its quoted value, whose own child is the bare value).
   */
  datatype XmlNode = XmlNode(kind: string, text: string, span: Ts.Node, named: seq<XmlNode>)

  /** What the scan has collected so far, or that a malformed attribute ended it. */
  datatype Scan = Aborted | Collected(className: Option<string>, methodName: Option<string>)

  /** The attribute's name: the text of its first named child, or "" without one. */
  function AttrName(attr: XmlNode): (r: string)
    ensures |attr.named| == 0 ==> r == ""
  {
    if |attr.named| > 0 then attr.named[0].text else ""
  }

  /** The attribute's value: the first named child of its second named child. */
  function AttrValue(attr: XmlNode): (r: Option<string>)
    ensures r.Some? <==> |attr.named| > 1 && |attr.named[1].named| > 0
  {
    if |attr.named| > 1 && |attr.named[1].named| > 0 then Some(attr.named[1].named[0].text) else None
  }

  /**
   * One named child of a tag: a `class` or `instance` attribute sets the
   * class, a `method` attribute the method; when such an attribute has no
   * value node the whole lookup gives up.
   */
  function AttrStep(st: Scan, child: XmlNode): (r: Scan)
    ensures st.Aborted? ==> r.Aborted?
    ensures child.kind != "attribute" ==> r == st
  {
    if st.Aborted? || child.kind != "attribute" then st
    else
      var name := AttrName(child);
      var afterClass :=
        if name == "class" || name == "instance" then
          (if AttrValue(child).None? then Aborted else Collected(AttrValue(child), st.methodName))
        else st;
      if afterClass.Aborted? || name != "method" then afterClass
      else if AttrValue(child).None? then Aborted
      else Collected(afterClass.className, AttrValue(child))
  }

  /** The named children of a tag, in order. */
  function AttrSteps(st: Scan, children: seq<XmlNode>): (r: Scan)
    ensures st.Aborted? ==> r.Aborted?
  {
    if |children| == 0 then st
    else AttrStep(AttrSteps(st, children[..|children| - 1]), children[|children| - 1])
  }

  /** One match: only a node at the cursor counts. */
  function NodeStep(st: Scan, node: XmlNode, pos: Position): (r: Scan)
    ensures st.Aborted? ==> r.Aborted?
    ensures !NodeAtPosition(node.span, pos) ==> r == st
  {
    if st.Aborted? || !NodeAtPosition(node.span, pos) then st
    else if node.kind == "attribute_value" || node.kind == "text" then
      Collected(Some(node.text), st.methodName)
    else if node.kind == "self_closing_tag" || node.kind == "start_tag" then
      AttrSteps(st, node.named)
    else st
  }

  /** All matches, in order. */
  function ScanAll(nodes: seq<XmlNode>, pos: Position): (r: Scan)
  {
    if |nodes| == 0 then Collected(None, None)
    else NodeStep(ScanAll(nodes[..|nodes| - 1], pos), nodes[|nodes| - 1], pos)
  }

  /** The text before the first `sep`, or all of `s` without one: what `split(sep)` yields first. */
  function BeforeFirst(s: string, sep: string): (r: string)
    requires |sep| > 0
    ensures !Contains(r, sep)
    ensures Contains(s, sep) ==> r + sep <= s
    ensures !Contains(s, sep) ==> r == s
    ensures Contains(s, sep) ==> |r| == Find(s, sep).value
  {
    match Find(s, sep)
    case None =>
      NoEarlierOccurrence(s, sep, |s|);
      assert s[..|s|] == s;
      s
    case Some(i) =>
      NoEarlierOccurrence(s, sep, i);
      assert s[..i] + sep == s[..i + |sep|];
      s[..i]
  }

  /**
   * The first two pieces `c.split(sep)` yields when `c` contains `sep`:
   * the text before the first `sep`, and the text after it up to the
   * next `sep` or the end.
   */
  function FirstTwoPieces(c: string, sep: string): (r: (string, string))
    requires |sep| > 0 && Contains(c, sep)
    ensures r.0 + sep <= c && !Contains(r.0, sep) && |r.0| == Find(c, sep).value
    ensures var rest := c[|r.0| + |sep|..];
      !Contains(r.1, sep)
      && (Contains(rest, sep) ==> r.1 + sep <= rest && |r.1| == Find(rest, sep).value)
      && (!Contains(rest, sep) ==> r.1 == rest)
  {
    var first := BeforeFirst(c, sep);
    assert |first| + |sep| <= |c| by {
      assert first + sep <= c;
    }
    var rest := c[|first| + |sep|..];
    var second := BeforeFirst(rest, sep);
    assert Contains(rest, sep) ==> second + sep <= rest && |second| == Find(rest, sep).value;
    assert !Contains(rest, sep) ==> second == rest;
    (first, second)
  }

  /** `"A:::B".split("::")` starts with "A" and ":B": the first `::` is the one that counts. */
  lemma FirstTwoPiecesTripleColon()
    ensures FirstTwoPieces("A:::B", "::") == ("A", ":B")
  {
    var c := "A:::B";
    assert c[1..3] == "::" by {
      assert c[1..3] == [c[1], c[2]];
    }
    assert c[0..2] != "::" by {
      assert c[0..2][0] == 'A';
    }
    assert Find(c, "::") == Some(1);
    var rest := c[3..];
    assert rest == ":B";
    assert rest[0..2] != "::" by {
      assert rest[0..2][1] == 'B';
    }
    assert Find(rest, "::") == None;
    var r := FirstTwoPieces(c, "::");
    assert r.0 == c[..1] == "A";
    assert r.1 == rest;
  }

  /** Before the first occurrence of `sep` there is none in the prefix. */
  lemma NoEarlierOccurrence(s: string, sep: string, i: nat)
    requires |sep| > 0 && i <= |s|
    requires forall j :: 0 <= j < i ==> !OccursAt(s, sep, j)
    ensures !Contains(s[..i], sep)
  {
    var pre := s[..i];
    var f := Find(pre, sep);
    if f.Some? {
      assert f.value < i;
      assert pre[f.value..f.value + |sep|] == s[f.value..f.value + |sep|];
      assert OccursAt(s, sep, f.value);
    }
  }

  /** The item the collected names denote. */
  function Classify(st: Scan): (r: Option<Item>)
    ensures r.None? <==> st.Aborted? || st.className.None?
    ensures r.Some? && st.methodName.Some? ==> r.value == Method(st.className.value, st.methodName.value)
    ensures r.Some? && st.methodName.None? && !Contains(st.className.value, "::") ==>
      r.value == Class(st.className.value)
    ensures r.Some? && st.methodName.None? && Contains(st.className.value, "::") ==>
      r.value.Const? && (r.value.cls, r.value.constant) == FirstTwoPieces(st.className.value, "::")
  {
    if st.Aborted? || st.className.None? then None
    else
      var cls := st.className.value;
      if st.methodName.Some? then Some(Method(cls, st.methodName.value))
      else if Contains(cls, "::") then
        var parts := FirstTwoPieces(cls, "::");
        Some(Const(parts.0, parts.1))
      else Some(Class(cls))
  }

  /** The PHP item at `pos`, given the first captured node of every match, in order. */
  function ItemAtPosition(nodes: seq<XmlNode>, pos: Position): (r: Option<Item>)
  {
    Classify(ScanAll(nodes, pos))
  }

  lemma {:induction false} AttrStepsAbortedPrefix(st: Scan, cs: seq<XmlNode>, j: nat)
    requires j <= |cs| && AttrSteps(st, cs[..j]).Aborted?
    ensures AttrSteps(st, cs).Aborted?
    decreases |cs| - j
  {
    if j < |cs| {
      assert cs[..j + 1][..j] == cs[..j];
      AttrStepsAbortedPrefix(st, cs, j + 1);
    } else {
      assert cs[..j] == cs;
    }
  }

  lemma {:induction false} ScanAbortedPrefix(nodes: seq<XmlNode>, pos: Position, k: nat)
    requires k <= |nodes| && ScanAll(nodes[..k], pos).Aborted?
    ensures ScanAll(nodes, pos).Aborted?
    decreases |nodes| - k
  {
    if k < |nodes| {
      assert nodes[..k + 1][..k] == nodes[..k];
      ScanAbortedPrefix(nodes, pos, k + 1);
    } else {
      assert nodes[..k] == nodes;
    }
  }

  /** An attribute without a value node, in a tag at the cursor, makes the lookup fail. */
  lemma AbortAt(nodes: seq<XmlNode>, pos: Position, i: nat, j: nat)
    requires i < |nodes| && NodeAtPosition(nodes[i].span, pos)
    requires nodes[i].kind == "self_closing_tag" || nodes[i].kind == "start_tag"
    requires j < |nodes[i].named|
    requires AttrStep(AttrSteps(ScanAll(nodes[..i], pos), nodes[i].named[..j]), nodes[i].named[j]).Aborted?
    ensures ItemAtPosition(nodes, pos) == None
  {
    var cs := nodes[i].named;
    assert cs[..j + 1][..j] == cs[..j];
    AttrStepsAbortedPrefix(ScanAll(nodes[..i], pos), cs, j + 1);
    assert nodes[..i + 1][..i] == nodes[..i];
    ScanAbortedPrefix(nodes, pos, i + 1);
  }

  /** The matches whose node contains the cursor. */
  function AtCursor(nodes: seq<XmlNode>, pos: Position): (r: seq<XmlNode>)
    ensures |r| <= |nodes|
    ensures forall n :: n in r <==> n in nodes && NodeAtPosition(n.span, pos)
  {
    if |nodes| == 0 then []
    else
      var last := nodes[|nodes| - 1];
      var before := nodes[..|nodes| - 1];
      assert forall n :: n in nodes <==> n in before || n == last;
      AtCursor(before, pos) + (if NodeAtPosition(last.span, pos) then [last] else [])
  }

  /** Only the nodes under the cursor decide the item. */
  lemma {:induction false} ScanOnlyAtCursor(nodes: seq<XmlNode>, pos: Position)
    ensures ScanAll(nodes, pos) == ScanAll(AtCursor(nodes, pos), pos)
    decreases |nodes|
  {
    if |nodes| > 0 {
      var last := nodes[|nodes| - 1];
      var before := nodes[..|nodes| - 1];
      ScanOnlyAtCursor(before, pos);
      var cut := AtCursor(before, pos);
      if NodeAtPosition(last.span, pos) {
        assert (cut + [last])[..|cut|] == cut;
      } else {
        assert AtCursor(nodes, pos) == cut;
      }
    }
  }

  lemma ScanAllStep(nodes: seq<XmlNode>, pos: Position, i: nat)
    requires i < |nodes|
    ensures ScanAll(nodes[..i + 1], pos) == NodeStep(ScanAll(nodes[..i], pos), nodes[i], pos)
  {
    assert nodes[..i + 1][..i] == nodes[..i];
  }

  lemma AttrStepsStep(st: Scan, cs: seq<XmlNode>, j: nat)
    requires j < |cs|
    ensures AttrSteps(st, cs[..j + 1]) == AttrStep(AttrSteps(st, cs[..j]), cs[j])
  {
    assert cs[..j + 1][..j] == cs[..j];
  }

  /** One named child of a tag at the cursor: the names it sets, or that it ends the lookup. */
  method ScanAttribute(className: Option<string>, methodName: Option<string>, child: XmlNode)
    returns (aborted: bool, newClass: Option<string>, newMethod: Option<string>)
    ensures aborted <==> AttrStep(Collected(className, methodName), child).Aborted?
    ensures !aborted ==> AttrStep(Collected(className, methodName), child) == Collected(newClass, newMethod)
  {
    aborted, newClass, newMethod := false, className, methodName;
    if child.kind == "attribute" {
      var attrName := AttrName(child);
      if attrName == "class" || attrName == "instance" {
        var value := AttrValue(child);
        if value.None? {
          return true, newClass, newMethod;
        }
        newClass := value;
      }
      if attrName == "method" {
        var value := AttrValue(child);
        if value.None? {
          return true, newClass, newMethod;
        }
        newMethod := value;
      }
    }
  }

  /**
   * `get_item_from_position` for XML: scan the matches, letting later
   * nodes at the cursor overwrite earlier findings, then classify.
   */
  method GetItemFromPosition(nodes: seq<XmlNode>, pos: Position) returns (r: Option<Item>)
    ensures r == ItemAtPosition(nodes, pos)
  {
    var className: Option<string> := None;
    var methodName: Option<string> := None;
    var i := 0;
    while i < |nodes|
      invariant 0 <= i <= |nodes|
      invariant ScanAll(nodes[..i], pos) == Collected(className, methodName)
    {
      ScanAllStep(nodes, pos, i);
      var node := nodes[i];
      if NodeAtPosition(node.span, pos) {
        if node.kind == "attribute_value" || node.kind == "text" {
          className := Some(node.text);
        } else if node.kind == "self_closing_tag" || node.kind == "start_tag" {
          var j := 0;
          while j < |node.named|
            invariant 0 <= j <= |node.named|
            invariant AttrSteps(ScanAll(nodes[..i], pos), node.named[..j]) == Collected(className, methodName)
          {
            AttrStepsStep(ScanAll(nodes[..i], pos), node.named, j);
            var aborted, newClass, newMethod := ScanAttribute(className, methodName, node.named[j]);
            if aborted {
              AbortAt(nodes, pos, i, j);
              return None;
            }
            className, methodName := newClass, newMethod;
            j := j + 1;
          }
          assert node.named[..j] == node.named;
        }
      }
      i := i + 1;
    }
    assert nodes[..i] == nodes;
    r := Classify(Collected(className, methodName));
  }
}

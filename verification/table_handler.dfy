/**
 * The table handler of the HTML-to-wikitext serializer
 * (src/Html2Wt/DOMHandlers/TableHandler.php): the newline constraints around
 * a table and its children, and the serializer-state bookkeeping of handle().
 * The DOM queries it makes are boolean (or integer) inputs; the serializer
 * state is a class whose output is a trace of emissions.
 */
module TableHandler {
  import opened Wrappers

  /** A separator constraint: at least min and at most max newlines. */
  datatype Constraint = Constraint(min: int, max: int)

  /**
   * The separator before a table: no newline is needed when the other node is
   * the table's dd parent (an indented table) or an annotation meta was
   * removed there; otherwise one, and at most two either way.
   */
  function Before(otherIsParent: bool, otherName: string, annotationMetaRemoved: bool): (c: Constraint)
    ensures c == Constraint(0, 2) || c == Constraint(1, 2)
    ensures c.min == 0 <==> (otherIsParent && otherName == "dd") || annotationMetaRemoved
  {
    if (otherIsParent && otherName == "dd") || annotationMetaRemoved then Constraint(0, 2)
    else Constraint(1, 2)
  }

  /** An annotation end marker meta that still has to be written; only an element can be one. */
  function IsSkippedEndMetaTag(isElement: bool, isAnnotationEndMarkerMeta: bool, needToWriteEndMeta: bool): (b: bool)
    ensures b <==> isElement && isAnnotationEndMarkerMeta && needToWriteEndMeta
  {
    if !isElement then false else isAnnotationEndMarkerMeta && needToWriteEndMeta
  }

  /**
   * The separator after a table: one newline is required exactly when one of
   * the two nodes is new, the other node is not at the top and is not a skipped
   * end meta; at most two either way.
   */
  function After(nodeIsNew: bool, otherIsNew: bool, otherAtTheTop: bool, otherIsSkippedEndMeta: bool): (c: Constraint)
    ensures c == Constraint(0, 2) || c == Constraint(1, 2)
    ensures c.min == 1 <==> (nodeIsNew || otherIsNew) && !otherAtTheTop && !otherIsSkippedEndMeta
  {
    if (nodeIsNew || otherIsNew) && !otherAtTheTop && !otherIsSkippedEndMeta then Constraint(1, 2)
    else Constraint(0, 2)
  }

  /** Between a table and its first child: at least one newline, at most maxNLsInTable. */
  function FirstChild(maxNLsInTable: int): (c: Constraint)
    ensures c.min == 1 && c.max == maxNLsInTable
  {
    Constraint(1, maxNLsInTable)
  }

  /** Between a table's last child and the table: the same constraint as after the table tag. */
  function LastChild(maxNLsInTable: int): (c: Constraint)
    ensures c == FirstChild(maxNLsInTable)
  {
    Constraint(1, maxNLsInTable)
  }

  /** A chunk of wikitext: a serialized table tag, or plain text. */
  datatype Chunk = TableTag(wt: string) | Text(s: string)

  /**
   * What the serializer emits: a chunk preceded by the separator constraints
   * in force when it was emitted, or the children (with the state they saw).
   */
  datatype Emission =
    | Emitted(chunk: Chunk, sep: Option<Constraint>)
    | Children(nesting: int, singleLine: seq<bool>)

  /** The table element as handle() sees it. */
  datatype TableElement = TableElement(
    startTagSrc: Option<string>,
    endTagSrc: Option<string>,
    parentName: string,
    hasPreviousNonSepSibling: bool,
    isLiteralHTML: bool,
    nextSibling: Option<nat>)

  /** An indented table: the first non-separator child of a dd. */
  predicate IndentTable(node: TableElement) {
    node.parentName == "dd" && !node.hasPreviousNonSepSibling
  }

  /**
   * The part of the serializer state the handler touches: the table nesting
   * depth, the pending separator constraints, the single-line context stack
   * (false marks a disabled level) and the emissions so far.
   */
  class SerializerState {
    var wikiTableNesting: int
    var sepConstraints: Option<Constraint>
    var singleLineContext: seq<bool>
    var emitted: seq<Emission>

    /** Emits the pending separator, then the chunk; the separator is then cleared. */
    method EmitChunk(c: Chunk)
      modifies this
      ensures emitted == old(emitted) + [Emitted(c, old(sepConstraints))]
      ensures sepConstraints.None?
      ensures wikiTableNesting == old(wikiTableNesting) && singleLineContext == old(singleLineContext)
    {
      emitted := emitted + [Emitted(c, sepConstraints)];
      sepConstraints := None;
    }

    /** Pushes a disabled single-line level. */
    method DisableSingleLine()
      modifies this
      ensures singleLineContext == old(singleLineContext) + [false]
      ensures wikiTableNesting == old(wikiTableNesting) && sepConstraints == old(sepConstraints)
      ensures emitted == old(emitted)
    {
      singleLineContext := singleLineContext + [false];
    }

    /** Pops the innermost single-line level. */
    method PopSingleLine()
      requires singleLineContext != []
      modifies this
      ensures singleLineContext == old(singleLineContext)[..|old(singleLineContext)| - 1]
      ensures wikiTableNesting == old(wikiTableNesting) && sepConstraints == old(sepConstraints)
      ensures emitted == old(emitted)
    {
      singleLineContext := singleLineContext[..|singleLineContext| - 1];
    }

    /** The children are serialized; they leave sepAfter as the pending constraints. */
    method SerializeChildren(sepAfter: Option<Constraint>)
      modifies this
      ensures emitted == old(emitted) + [Children(wikiTableNesting, singleLineContext)]
      ensures sepConstraints == sepAfter
      ensures wikiTableNesting == old(wikiTableNesting) && singleLineContext == old(singleLineContext)
    {
      emitted := emitted + [Children(wikiTableNesting, singleLineContext)];
      sepConstraints := sepAfter;
    }
  }

  /**
   * handle(): emits the start tag ("{|" unless the source had one), the
   * children one table level deeper (unless the table is literal HTML) and the
   * end tag ("|}" by default), which is preceded by the constraints the
   * children left, or {1, 2} when they left none (an empty table). An
   * indented table disables single-line mode around all of it. The nesting
   * depth and the single-line stack end as they started, no separator is left
   * pending, and the next sibling is returned.
   */
  method Handle(node: TableElement, state: SerializerState, childrenSep: Option<Constraint>) returns (next: Option<nat>)
    modifies state
    ensures state.wikiTableNesting == old(state.wikiTableNesting)
    ensures state.singleLineContext == old(state.singleLineContext)
    ensures state.sepConstraints.None?
    ensures state.emitted == old(state.emitted) + [
      Emitted(TableTag(node.startTagSrc.GetOr("{|")), old(state.sepConstraints)),
      Children(old(state.wikiTableNesting) + (if node.isLiteralHTML then 0 else 1),
               old(state.singleLineContext) + (if IndentTable(node) then [false] else [])),
      Emitted(Text(node.endTagSrc.GetOr("|}")), if childrenSep.None? then Some(Constraint(1, 2)) else childrenSep)]
    ensures next == node.nextSibling
  {
    ghost var emitted0, nesting0, singleLine0, sep0 := state.emitted, state.wikiTableNesting, state.singleLineContext, state.sepConstraints;
    var wt := node.startTagSrc.GetOr("{|");
    var indentTable := node.parentName == "dd" && !node.hasPreviousNonSepSibling;
    if indentTable {
      state.DisableSingleLine();
    }
    state.EmitChunk(TableTag(wt));
    if !node.isLiteralHTML {
      state.wikiTableNesting := state.wikiTableNesting + 1;
    }
    assert state.singleLineContext == singleLine0 + (if indentTable then [false] else []);
    state.SerializeChildren(childrenSep);
    ghost var children := Children(nesting0 + (if node.isLiteralHTML then 0 else 1), singleLine0 + (if indentTable then [false] else []));
    assert state.emitted == emitted0 + [Emitted(TableTag(wt), sep0), children];
    if !node.isLiteralHTML {
      state.wikiTableNesting := state.wikiTableNesting - 1;
    }
    if state.sepConstraints.None? {
      state.sepConstraints := Some(Constraint(1, 2));
    }
    state.EmitChunk(Text(node.endTagSrc.GetOr("|}")));
    if indentTable {
      state.PopSingleLine();
    }
    next := node.nextSibling;
  }
}

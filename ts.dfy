/**
 * Positions of syntax-tree nodes and their conversion to editor positions.
 * A tree-sitter node is reduced to its start and end points; rows and
 * columns are unbounded there (`usize`) and are cast to the 32-bit
 * unsigned integers of the editor protocol.
 */
module Ts {

  const U32_MODULUS: int := 0x1_0000_0000

  /** Rust's truncating `as u32` cast of a non-negative integer. */
  function U32(n: nat): (r: nat)
    ensures r < U32_MODULUS
    ensures n < U32_MODULUS ==> r == n
    ensures (r - n) % U32_MODULUS == 0
  {
    n % U32_MODULUS
  }

  /** A tree-sitter point: zero-based row and column. */
  datatype Point = Point(row: nat, column: nat)

  /** The part of a tree-sitter node the server looks at. */
  datatype Node = Node(start: Point, end: Point)

  /** An editor position (line and character, both `u32`). */
  datatype Position = Position(line: nat, character: nat)

  datatype Range = Range(start: Position, end: Position)

  function PositionOf(p: Point): Position {
    Position(U32(p.row), U32(p.column))
  }

  /** Lexicographic order on positions: line first, then character. */
  predicate NotAfter(a: Position, b: Position) {
    a.line < b.line || (a.line == b.line && a.character <= b.character)
  }

  /** A position inside a range, both ends included. */
  predicate InRange(pos: Position, r: Range) {
    NotAfter(r.start, pos) && NotAfter(pos, r.end)
  }

  /**
   * The editor range of a node: each row and column goes through the
   * 32-bit cast; below 2^32 they are copied unchanged.
   */
  function GetRangeFromNode(node: Node): (r: Range)
    ensures node.start.row < U32_MODULUS ==> r.start.line == node.start.row
    ensures node.start.column < U32_MODULUS ==> r.start.character == node.start.column
    ensures node.end.row < U32_MODULUS ==> r.end.line == node.end.row
    ensures node.end.column < U32_MODULUS ==> r.end.character == node.end.column
    ensures r.start.line < U32_MODULUS && r.start.character < U32_MODULUS
    ensures r.end.line < U32_MODULUS && r.end.character < U32_MODULUS
  {
    Range(PositionOf(node.start), PositionOf(node.end))
  }

  /**
   * Whether the cursor position lies on the node: a sequence of early
   * rejections on the line, then on the character at the first and last
   * line of the node.
   */
  function NodeAtPosition(node: Node, pos: Position): (b: bool)
    ensures pos.line < U32(node.start.row) || pos.line > U32(node.end.row) ==> !b
    ensures pos.line == U32(node.start.row) && pos.character < U32(node.start.column) ==> !b
    ensures pos.line == U32(node.end.row) && pos.character > U32(node.end.column) ==> !b
    ensures U32(node.start.row) < pos.line < U32(node.end.row) ==> b
  {
    var start := node.start;
    var end := node.end;
    if pos.line < U32(start.row) || pos.line > U32(end.row) then false
    else if pos.line == U32(start.row) && pos.character < U32(start.column) then false
    else if pos.line == U32(end.row) && pos.character > U32(end.column) then false
    else true
  }

  /**
   * The early-return test is the lexicographic containment of the cursor
   * in the node's editor range, both ends included.
   */
  lemma NodeAtPositionIsInRange(node: Node, pos: Position)
    ensures NodeAtPosition(node, pos) <==> InRange(pos, GetRangeFromNode(node))
  {
  }
}

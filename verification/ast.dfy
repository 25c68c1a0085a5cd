/** The syntax tree of the templating language: a tree is either a `Node`,
    which owns an ordered sequence of children, or a `Leaf`, which owns none;
    both carry a kind and an optional source range. */
module Ast {
  import opened Wrappers

  /** A source span. Its definition is not shown; the model represents it
      by a start and an end offset, their total `Sum` and the all-zero
      default range. */
  datatype TextRange = TextRange(start: nat, end: nat)

  /** The total of a range's offsets; a range whose total is zero is
      degenerate and is not stored in a tree. */
  function Sum(r: TextRange): nat
  {
    r.start + r.end
  }

  /** `TextRange::default()`. */
  function DefaultRange(): TextRange
  {
    TextRange(0, 0)
  }

  /** The payload of a template tag. Its definition is not shown; the model
      keeps it opaque. */
  type Template(==)

  /** The payload of a `for … in …` loop. */
  datatype ForInLoop = ForIn(pattern: AST, terms: AST, block: AST)

  /** The catalogue of node kinds. */
  datatype ASTKind =
    | None
    | Program
    | Block
    | Statement
    | ForInLoop(forIn: ForInLoop)
    | Expression(eos: bool)
    | InfixExpression
    | PrefixExpression
    | SuffixExpression
    | Template(template: Template)
    | List
    | Dict
    | Pair
    | Null
    | Boolean(boolean: bool)
    | String(text: string)

  /** A tree node: `Node` with children, or `Leaf` without. */
  datatype AST =
    | Node(kind: ASTKind, children: seq<AST>, r: Option<TextRange>)
    | Leaf(kind: ASTKind, r: Option<TextRange>)

  /** The range a constructor keeps, as `Range` later reads it back: the
      given range unless it is degenerate, the default range otherwise. */
  function Kept(r: TextRange): TextRange
  {
    if Sum(r) != 0 then r else DefaultRange()
  }

  /** `box_range`: a degenerate range is dropped, any other is stored. */
  function BoxRange(r: TextRange): (b: Option<TextRange>)
    ensures b.None? <==> Sum(r) == 0
    ensures b.Some? ==> b.value == r
  {
    if Sum(r) == 0 then Option.None else Some(r)
  }

  /** `AST::default()`. */
  function DefaultAst(): (a: AST)
    ensures a.Leaf? && a.r.None?
    ensures Kind(a) == ASTKind.None && Children(a) == []
  {
    Leaf(ASTKind.None, Option.None)
  }

  // ---------------------------------------------------------------------
  // Accessors

  /** `AST::kind`: the stored kind, whatever the shape. */
  function Kind(a: AST): (k: ASTKind)
    ensures match a
      case Node(_, children, r) => a == Node(k, children, r)
      case Leaf(_, r) => a == Leaf(k, r)
  {
    match a
    case Node(kind, _, _) => kind
    case Leaf(kind, _) => kind
  }

  /** `AST::children`: a node's children in stored order, nothing for a
      leaf. */
  function Children(a: AST): (cs: seq<AST>)
    ensures a.Leaf? ==> cs == []
    ensures a.Node? ==> a == Node(a.kind, cs, a.r)
  {
    match a
    case Node(_, children, _) => children
    case Leaf(_, _) => []
  }

  /** `AST::range`: the stored range, or the default range when none is
      stored. */
  function Range(a: AST): (range: TextRange)
    ensures a.r == Some(range) || (a.r.None? && range == DefaultRange())
  {
    match a.r
    case Some(range) => range
    case None => DefaultRange()
  }

  // ---------------------------------------------------------------------
  // Constructors

  /** `AST::program`: never stores a range. */
  function ProgramNode(children: seq<AST>): (a: AST)
    ensures a.Node? && a.r.None?
    ensures Kind(a) == ASTKind.Program && Children(a) == children
    ensures Range(a) == DefaultRange()
  {
    Node(ASTKind.Program, children, Option.None)
  }

  /** `AST::block`. */
  function BlockNode(children: seq<AST>, r: TextRange): (a: AST)
    ensures a.Node? && Kind(a) == ASTKind.Block
    ensures Children(a) == children && Range(a) == Kept(r)
  {
    Node(ASTKind.Block, children, BoxRange(r))
  }

  /** `AST::statement`. The parser's `AST::statements`, which is not defined
      in ast/mod.rs, is modelled by this constructor as well. */
  function StatementNode(children: seq<AST>, r: TextRange): (a: AST)
    ensures a.Node? && Kind(a) == ASTKind.Statement
    ensures Children(a) == children && Range(a) == Kept(r)
  {
    Node(ASTKind.Statement, children, BoxRange(r))
  }

  /** `AST::for_in_loop`: a leaf; pattern, terms and block live only in
      the kind. */
  function ForInLoopLeaf(pattern: AST, terms: AST, block: AST, r: TextRange): (a: AST)
    ensures a.Leaf? && Children(a) == [] && Range(a) == Kept(r)
    ensures Kind(a).ForInLoop?
    ensures Kind(a).forIn.pattern == pattern && Kind(a).forIn.terms == terms
    ensures Kind(a).forIn.block == block
  {
    Leaf(ASTKind.ForInLoop(ForIn(pattern, terms, block)), BoxRange(r))
  }

  /** `AST::expression`: `eos` records an explicit statement terminator. */
  function ExpressionNode(children: seq<AST>, eos: bool, r: TextRange): (a: AST)
    ensures a.Node? && Kind(a) == ASTKind.Expression(eos)
    ensures Children(a) == children && Range(a) == Kept(r)
  {
    Node(ASTKind.Expression(eos), children, BoxRange(r))
  }

  /** `AST::infix`: the operator and both operands are discarded. */
  function InfixLeaf(op: string, lhs: AST, rhs: AST, r: TextRange): (a: AST)
    ensures a.Leaf? && Kind(a) == ASTKind.InfixExpression
    ensures Children(a) == [] && Range(a) == Kept(r)
  {
    Leaf(ASTKind.InfixExpression, BoxRange(r))
  }

  /** `AST::prefix`: the operator and the operand are discarded. */
  function PrefixLeaf(op: string, rhs: AST, r: TextRange): (a: AST)
    ensures a.Leaf? && Kind(a) == ASTKind.PrefixExpression
    ensures Children(a) == [] && Range(a) == Kept(r)
  {
    Leaf(ASTKind.PrefixExpression, BoxRange(r))
  }

  /** `AST::suffix`: the operator and the operand are discarded. */
  function SuffixLeaf(op: string, lhs: AST, r: TextRange): (a: AST)
    ensures a.Leaf? && Kind(a) == ASTKind.SuffixExpression
    ensures Children(a) == [] && Range(a) == Kept(r)
  {
    Leaf(ASTKind.SuffixExpression, BoxRange(r))
  }

  /** `AST::template`: a leaf; the template lives only in the kind. */
  function TemplateLeaf(value: Template, r: TextRange): (a: AST)
    ensures a.Leaf? && Kind(a) == ASTKind.Template(value)
    ensures Children(a) == [] && Range(a) == Kept(r)
  {
    Leaf(ASTKind.Template(value), BoxRange(r))
  }

  /** `AST::list`. */
  function ListNode(value: seq<AST>, r: TextRange): (a: AST)
    ensures a.Node? && Kind(a) == ASTKind.List
    ensures Children(a) == value && Range(a) == Kept(r)
  {
    Node(ASTKind.List, value, BoxRange(r))
  }

  /** `AST::null`. */
  function NullLeaf(r: TextRange): (a: AST)
    ensures a.Leaf? && Kind(a) == ASTKind.Null
    ensures Children(a) == [] && Range(a) == Kept(r)
  {
    Leaf(ASTKind.Null, BoxRange(r))
  }

  /** `AST::boolean`. */
  function BooleanLeaf(value: bool, r: TextRange): (a: AST)
    ensures a.Leaf? && Kind(a) == ASTKind.Boolean(value)
    ensures Children(a) == [] && Range(a) == Kept(r)
  {
    Leaf(ASTKind.Boolean(value), BoxRange(r))
  }

  /** `AST::string`. */
  function StringLeaf(value: string, r: TextRange): (a: AST)
    ensures a.Leaf? && Kind(a) == ASTKind.String(value)
    ensures Children(a) == [] && Range(a) == Kept(r)
  {
    Leaf(ASTKind.String(value), BoxRange(r))
  }

  // ---------------------------------------------------------------------
  // Debug rendering

  /** A kind that `Debug` prints as a bare value. */
  predicate IsScalar(k: ASTKind)
  {
    k.Null? || k.Boolean? || k.String?
  }

  /** `Debug::fmt` for the scalar kinds: `null`, `true`/`false`, or the
      string verbatim. Any other kind goes through the struct formatter,
      which is not modelled, and gives `None` here. */
  function DebugText(a: AST): (text: Option<string>)
    ensures text.Some? <==> IsScalar(Kind(a))
  {
    match Kind(a)
    case Null => Some("null")
    case Boolean(b) => Some(if b then "true" else "false")
    case String(v) => Some(v)
    case _ => Option.None
  }

  // ---------------------------------------------------------------------
  // Lemmas

  /** Infix, prefix and suffix trees depend only on their range: operators
      and operands leave no trace. */
  lemma OperatorNodesForgetOperands(op1: string, op2: string, x1: AST, x2: AST, y1: AST, y2: AST, r: TextRange)
    ensures InfixLeaf(op1, x1, y1, r) == InfixLeaf(op2, x2, y2, r)
    ensures PrefixLeaf(op1, x1, r) == PrefixLeaf(op2, x2, r)
    ensures SuffixLeaf(op1, x1, r) == SuffixLeaf(op2, x2, r)
  {
  }

  /** The Debug text of the scalar constructors. */
  lemma DebugScalars(b: bool, v: string, r: TextRange)
    ensures DebugText(NullLeaf(r)) == Some("null")
    ensures DebugText(BooleanLeaf(b, r)) == Some(if b then "true" else "false")
    ensures DebugText(StringLeaf(v, r)) == Some(v)
  {
  }

  /** The Debug text of a tree depends on its kind only, never on its
      range or children. */
  lemma DebugIgnoresShape(a: AST, b: AST)
    requires Kind(a) == Kind(b)
    ensures DebugText(a) == DebugText(b)
  {
  }
}

/**
 Microcode statements as trees, the syntax nodes the grammar builds for them, and
 the text the compiler writes for them (drivers/mdrive/microcode/compile/compiler.py).
 Configuration variables (`$name`) are not part of these trees.
 */
module Microcode {
  import opened Wrappers
  import opened Regexes
  import opened Peg
  import opened Grammar

  datatype Atom = Number(digits: string) | Quoted(text: string) | Name(id: string)

  // The unary operator is "" when there is none.
  datatype Expr = Last(unary: string, atom: Atom) | Op(unary: string, atom: Atom, op: string, operand: Expr)

  datatype Jump = Calling | Branching

  datatype Statement =
    | Jumping(kind: Jump, place: string, arg: Option<Expr>)
    | Return
    | Label(id: string)
    | Declare(id: string, value: Option<Expr>)
    | Assign(target: string, first: Expr, others: seq<Expr>)
    | Command(word: string)

  // ---------- Lexical form ----------

  predicate IsName(s: string) {
    1 <= |s| <= 2 && IsAlpha(s[0]) && (|s| == 2 ==> IsWord(s[1]))
  }

  predicate AllDigits(s: string) {
    |s| > 0 && forall i :: 0 <= i < |s| ==> IsDigit(s[i])
  }

  predicate IsNegative(s: string) {
    s != "" && s[0] == '-'
  }

  predicate IsNumber(s: string) {
    AllDigits(if IsNegative(s) then s[1..] else s)
  }

  predicate IsQuoted(s: string) {
    |s| >= 2 && s[0] == '"' && s[|s| - 1] == '"' && forall i :: 1 <= i < |s| - 1 ==> s[i] != '"'
  }

  predicate LexicalAtom(a: Atom) {
    match a
    case Number(digits) => IsNumber(digits)
    case Quoted(text) => IsQuoted(text)
    case Name(id) => IsName(id)
  }

  const COMPARES: set<string> := {"<>", "<=", ">=", "<", ">", "="}
  const MATHS: set<string> := {"+", "*", "/", "&", "|", "^", "-"}
  const UNARIES: set<string> := {"!", "-"}

  predicate Lexical(e: Expr) {
    && (e.unary == "" || e.unary in UNARIES)
    && LexicalAtom(e.atom)
    && (e.Op? ==> (e.op in COMPARES || e.op in MATHS) && Lexical(e.operand))
  }

  predicate LexicalOption(e: Option<Expr>) {
    e.Some? ==> Lexical(e.value)
  }

  predicate LexicalStatement(s: Statement) {
    match s
    case Jumping(_, place, arg) => IsName(place) && LexicalOption(arg)
    case Return => true
    case Label(id) => IsName(id)
    case Declare(id, value) => IsName(id) && LexicalOption(value)
    case Assign(target, first, others) =>
      IsName(target) && Lexical(first) && forall i :: 0 <= i < |others| ==> Lexical(others[i])
    case Command(word) => word in BARE
  }

  // ---------- Syntax nodes ----------

  function AtomNode(a: Atom): Node {
    Symbol("atom", [
      match a
      case Number(digits) => Symbol("literal", [Leaf("number", digits)])
      case Quoted(text) => Symbol("literal", [Leaf("string", text)])
      case Name(id) => Leaf("name", id)])
  }

  function OperatorNode(op: string): Node {
    Leaf(if op in COMPARES then "compare" else "math", op)
  }

  function UnaryNodes(unary: string): seq<Node> {
    if unary == "" then [] else [Leaf("unary", unary)]
  }

  function ExprNode(e: Expr): Node {
    Symbol("expression",
           UnaryNodes(e.unary) + [AtomNode(e.atom)] +
           match e
           case Last(_, _) => []
           case Op(_, _, op, operand) => [OperatorNode(op), ExprNode(operand)])
  }

  function ExprNodes(es: seq<Expr>): seq<Node> {
    if es == [] then [] else [ExprNode(es[0])] + ExprNodes(es[1..])
  }

  function OptionNodes(e: Option<Expr>): seq<Node> {
    if e.Some? then [ExprNode(e.value)] else []
  }

  function KindNode(s: Statement): Node {
    match s
    case Jumping(kind, place, arg) =>
      Symbol(if kind.Calling? then "call" else "branch", [Leaf("name", place)] + OptionNodes(arg))
    case Return => Symbol("return_", [])
    case Label(id) => Symbol("label", [Leaf("name", id)])
    case Declare(id, value) => Symbol("declaration", [Leaf("name", id)] + OptionNodes(value))
    case Assign(target, first, others) =>
      Symbol("assignment", [Leaf("name", target), ExprNode(first)] + ExprNodes(others))
    case Command(word) => Leaf("command", word)
  }

  function StatementNode(s: Statement): Node {
    Symbol("statement", [KindNode(s)])
  }

  function ProgramNodes(program: seq<Statement>): seq<Node> {
    if program == [] then [] else [StatementNode(program[0])] + ProgramNodes(program[1..])
  }

  // ---------- Emitted text ----------

  function AtomText(a: Atom): string {
    match a
    case Number(digits) => digits
    case Quoted(text) => text
    case Name(id) => id
  }

  function UnaryText(unary: string): string {
    if unary == "" then "" else unary + " "
  }

  function Emit(e: Expr): string {
    UnaryText(e.unary) + AtomText(e.atom) + if e.Op? then " " + e.op + " " + Emit(e.operand) else ""
  }

  // Each value after the first is preceded by a comma.
  function EmitOthers(es: seq<Expr>): string {
    if es == [] then "" else ", " + Emit(es[0]) + EmitOthers(es[1..])
  }

  function EmitOption(before: string, e: Option<Expr>): string {
    if e.Some? then before + Emit(e.value) else ""
  }

  function Opcode(kind: Jump): string {
    if kind.Calling? then "CL" else "BR"
  }

  // A command takes its arguments without an equals sign.
  function Equals(target: string): string {
    if target in COMMANDS then "" else "= "
  }

  function EmitStatement(s: Statement): string {
    match s
    case Jumping(kind, place, arg) => Opcode(kind) + " " + place + EmitOption(", ", arg)
    case Return => "RT"
    case Label(id) => "LB " + id
    case Declare(id, value) => "VA " + id + EmitOption(" = ", value)
    case Assign(target, first, others) =>
      target + " " + Equals(target) + Emit(first) + EmitOthers(others)
    case Command(word) => word
  }

  /** One line for each statement. */
  function Listing(program: seq<Statement>): string {
    if program == [] then "" else EmitStatement(program[0]) + "\n" + Listing(program[1..])
  }

  // ---------- What re-reading the text gives ----------

  // The grammar takes a leading minus as the unary operator before it tries a number.
  function Normalize(e: Expr): (r: Expr)
    decreases e
  {
    var minus := e.unary == "" && e.atom.Number? && IsNegative(e.atom.digits);
    var unary := if minus then "-" else e.unary;
    var atom := if minus then Number(e.atom.digits[1..]) else e.atom;
    match e
    case Last(_, _) => Last(unary, atom)
    case Op(_, _, op, operand) => Op(unary, atom, op, Normalize(operand))
  }

  /** No number with a minus sign of its own stands without a unary operator. */
  predicate Normal(e: Expr) {
    && !(e.unary == "" && e.atom.Number? && IsNegative(e.atom.digits))
    && (e.Op? ==> Normal(e.operand))
  }

  lemma {:induction false} NormalizeFixesNormal(e: Expr)
    ensures Normalize(e) == e <==> Normal(e)
    ensures Normal(Normalize(e)) || !Lexical(e)
    ensures Lexical(e) ==> Lexical(Normalize(e))
    decreases e
  {
    if e.Op? {
      NormalizeFixesNormal(e.operand);
    }
  }
}

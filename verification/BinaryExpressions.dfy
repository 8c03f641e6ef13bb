/** The shift/reduce parser for binary expressions, with its stack of operands and operators and its parallel stack of
    position markers. Operands are what the unary-expression parser returns; they are leaves here. */
module BinaryExpressions {
  import opened Wrappers

  datatype TokenKind = Punctuator | Keyword | OtherToken

  datatype Token = Token(kind: TokenKind, value: string)

  datatype NodeType = LogicalExpression | BinaryExpression

  datatype Expr =
    | Operand(id: int, start: int, end: int)
    | Binary(nodeType: NodeType, operator: Token, left: Expr, right: Expr, start: int, end: int)

  // How tightly an operator binds; 0 for every other token.
  function BinaryPrecedence(token: Token, allowIn: bool): nat {
    if token.kind.OtherToken? then 0
    else match token.value
      case "||" => 1
      case "&&" => 2
      case "|" => 3
      case "^" => 4
      case "&" => 5
      case "==" | "!=" | "===" | "!==" => 6
      case "<" | ">" | "<=" | ">=" | "instanceof" => 7
      case "in" => if allowIn then 7 else 0
      case "<<" | ">>" | ">>>" => 8
      case "+" | "-" => 9
      case "*" | "/" | "%" => 11
      case _ => 0
  }

  function CreateBinaryExpression(operator: Token, left: Expr, right: Expr): Expr {
    Binary(if operator.value == "||" || operator.value == "&&" then LogicalExpression else BinaryExpression,
           operator, left, right, 0, 0)
  }

  // ----- what the tree means

  function Leaves(e: Expr): (ls: seq<Expr>)
    ensures |ls| >= 1
  {
    match e
    case Operand(_, _, _) => [e]
    case Binary(_, _, left, right, _, _) => Leaves(left) + Leaves(right)
  }

  function Operators(e: Expr): (os: seq<Token>)
    ensures |os| == |Leaves(e)| - 1
  {
    match e
    case Operand(_, _, _) => []
    case Binary(_, operator, left, right, _, _) => Operators(left) + [operator] + Operators(right)
  }

  // An operand binds tighter than any operator.
  predicate BindsAtLeast(e: Expr, prec: nat, allowIn: bool) {
    e.Binary? ==> BinaryPrecedence(e.operator, allowIn) >= prec
  }

  // Left children bind at least as tightly as their parent and right children strictly tighter.
  predicate Associated(e: Expr, allowIn: bool) {
    e.Binary? ==>
      && BinaryPrecedence(e.operator, allowIn) > 0
      && BindsAtLeast(e.left, BinaryPrecedence(e.operator, allowIn), allowIn)
      && BindsAtLeast(e.right, BinaryPrecedence(e.operator, allowIn) + 1, allowIn)
      && Associated(e.left, allowIn) && Associated(e.right, allowIn)
  }

  // Every node has the type of its operator and covers the text from its first leaf to its last.
  predicate Spans(e: Expr) {
    e.Binary? ==>
      && e.start == Leaves(e)[0].start && e.end == Leaves(e)[|Leaves(e)| - 1].end
      && (e.nodeType == LogicalExpression <==> e.operator.value in {"||", "&&"})
      && Spans(e.left) && Spans(e.right)
  }

  // ----- there is only one such tree

  lemma {:induction false} OperatorsBind(e: Expr, prec: nat, allowIn: bool, k: nat)
    requires Associated(e, allowIn) && BindsAtLeast(e, prec, allowIn) && k < |Operators(e)|
    ensures BinaryPrecedence(Operators(e)[k], allowIn) >= prec
  {
    var n := |Operators(e.left)|;
    if k < n {
      OperatorsBind(e.left, prec, allowIn, k);
    } else if k > n {
      OperatorsBind(e.right, prec, allowIn, k - n - 1);
    }
  }

  // The root operator is the last of the loosest ones.
  lemma RootOperator(e: Expr, allowIn: bool, k: nat)
    requires e.Binary? && Associated(e, allowIn) && k < |Operators(e)|
    ensures var n := |Operators(e.left)|;
            var p := BinaryPrecedence(e.operator, allowIn);
            && Operators(e)[n] == e.operator
            && (k < n ==> BinaryPrecedence(Operators(e)[k], allowIn) >= p)
            && (k > n ==> BinaryPrecedence(Operators(e)[k], allowIn) > p)
  {
    var n := |Operators(e.left)|;
    var p := BinaryPrecedence(e.operator, allowIn);
    if k < n {
      OperatorsBind(e.left, p, allowIn, k);
    } else if k > n {
      OperatorsBind(e.right, p + 1, allowIn, k - n - 1);
    }
  }

  lemma {:induction false} TreeUnique(e: Expr, f: Expr, allowIn: bool)
    requires Associated(e, allowIn) && Associated(f, allowIn) && Spans(e) && Spans(f)
    requires Leaves(e) == Leaves(f) && Operators(e) == Operators(f)
    ensures e == f
  {
    if e.Binary? && f.Binary? {
      var n, m := |Operators(e.left)|, |Operators(f.left)|;
      RootOperator(e, allowIn, m);
      RootOperator(f, allowIn, n);
      assert n == m;
      var el, er, fl, fr := Leaves(e.left), Leaves(e.right), Leaves(f.left), Leaves(f.right);
      assert el == Leaves(e)[..n + 1] == fl && er == Leaves(e)[n + 1..] == fr;
      assert Operators(e.left) == Operators(e)[..n] == Operators(f.left);
      assert Operators(e.right) == Operators(e)[n + 1..] == Operators(f.right);
      TreeUnique(e.left, f.left, allowIn);
      TreeUnique(e.right, f.right, allowIn);
    }
  }

  // ----- the grammar of ECMA-262 5.1, sections 11.5 to 11.11

  // One nonterminal for each level, from the loosest to the tightest.
  datatype Level =
    | LogicalOr | LogicalAnd | BitwiseOr | BitwiseXor | BitwiseAnd
    | Equality | Relational | Shifting | Additive | Multiplicative | Unary

  function OperatorsOf(level: Level, allowIn: bool): set<string> {
    match level
    case LogicalOr => {"||"}
    case LogicalAnd => {"&&"}
    case BitwiseOr => {"|"}
    case BitwiseXor => {"^"}
    case BitwiseAnd => {"&"}
    case Equality => {"==", "!=", "===", "!=="}
    case Relational => {"<", ">", "<=", ">=", "instanceof"} + if allowIn then {"in"} else {}
    case Shifting => {"<<", ">>", ">>>"}
    case Additive => {"+", "-"}
    case Multiplicative => {"*", "/", "%"}
    case Unary => {}
  }

  function Tighter(level: Level): Level {
    match level
    case LogicalOr => LogicalAnd
    case LogicalAnd => BitwiseOr
    case BitwiseOr => BitwiseXor
    case BitwiseXor => BitwiseAnd
    case BitwiseAnd => Equality
    case Equality => Relational
    case Relational => Shifting
    case Shifting => Additive
    case Additive => Multiplicative
    case Multiplicative => Unary
    case Unary => Unary
  }

  // The number of levels that are tighter.
  function Above(level: Level): nat {
    match level
    case LogicalOr => 10
    case LogicalAnd => 9
    case BitwiseOr => 8
    case BitwiseXor => 7
    case BitwiseAnd => 6
    case Equality => 5
    case Relational => 4
    case Shifting => 3
    case Additive => 2
    case Multiplicative => 1
    case Unary => 0
  }

  predicate OperatorAt(token: Token, level: Level, allowIn: bool) {
    !token.kind.OtherToken? && token.value in OperatorsOf(level, allowIn)
  }

  ghost predicate IsOperator(token: Token, allowIn: bool) {
    exists level :: OperatorAt(token, level, allowIn)
  }

  // An expression of a level is one of the next tighter level; or an expression of the level, an operator of the level
  // and an expression of the next tighter level.
  predicate Derives(level: Level, e: Expr, allowIn: bool)
    decreases e, Above(level)
  {
    if level.Unary? then e.Operand?
    else
      || Derives(Tighter(level), e, allowIn)
      || (&& e.Binary? && OperatorAt(e.operator, level, allowIn)
          && Derives(level, e.left, allowIn) && Derives(Tighter(level), e.right, allowIn))
  }

  // The precedence that the parser gives to the operators of a level; a Unary expression binds tighter than all.
  function LeastPrecedence(level: Level): nat {
    if Above(level) <= 1 then 12 - Above(level) else 11 - Above(level)
  }

  lemma OperatorsByLevel(token: Token, level: Level, allowIn: bool)
    ensures OperatorAt(token, level, allowIn)
       <==> BinaryPrecedence(token, allowIn) == LeastPrecedence(level) && !level.Unary?
  {
  }

  // The tokens that the parser takes for operators are those of the grammar.
  lemma OperatorsAreThose(token: Token, allowIn: bool)
    ensures BinaryPrecedence(token, allowIn) > 0 <==> IsOperator(token, allowIn)
  {
    forall level: Level
      ensures OperatorAt(token, level, allowIn)
         <==> BinaryPrecedence(token, allowIn) == LeastPrecedence(level) && !level.Unary?
    {
      OperatorsByLevel(token, level, allowIn);
    }
    hide OperatorAt;
    var p := BinaryPrecedence(token, allowIn);
    if p > 0 {
      var level :=
        if p == 1 then LogicalOr else if p == 2 then LogicalAnd else if p == 3 then BitwiseOr
        else if p == 4 then BitwiseXor else if p == 5 then BitwiseAnd else if p == 6 then Equality
        else if p == 7 then Relational else if p == 8 then Shifting else if p == 9 then Additive else Multiplicative;
      assert OperatorAt(token, level, allowIn);
    }
  }

  // The trees that the parser builds are the derivations of the grammar.
  lemma {:induction false} AssociatedIsDerivable(level: Level, e: Expr, allowIn: bool)
    ensures Derives(level, e, allowIn) <==> Associated(e, allowIn) && BindsAtLeast(e, LeastPrecedence(level), allowIn)
    decreases e, Above(level)
  {
    hide OperatorAt, OperatorsOf, IsOperator, BinaryPrecedence;
    if level.Unary? {
      if e.Binary? {
        PrecedenceBound(e.operator, allowIn);
      }
    } else {
      AssociatedIsDerivable(Tighter(level), e, allowIn);
      if e.Binary? {
        PrecedenceBound(e.operator, allowIn);
        OperatorsByLevel(e.operator, level, allowIn);
        AssociatedIsDerivable(level, e.left, allowIn);
        AssociatedIsDerivable(Tighter(level), e.right, allowIn);
        if e.right.Binary? {
          PrecedenceBound(e.right.operator, allowIn);
        }
      }
    }
  }

  lemma LoosestBinds(e: Expr, allowIn: bool)
    requires Associated(e, allowIn)
    ensures BindsAtLeast(e, LeastPrecedence(LogicalOr), allowIn)
  {
  }

  // No operator has precedence ten, and none has more than eleven.
  lemma PrecedenceBound(token: Token, allowIn: bool)
    ensures BinaryPrecedence(token, allowIn) <= 11 && BinaryPrecedence(token, allowIn) != 10
  {
  }

  // The grammar is unambiguous: one derivation for the operands and operators of a text.
  lemma DerivationUnique(e: Expr, f: Expr, allowIn: bool)
    requires Derives(LogicalOr, e, allowIn) && Derives(LogicalOr, f, allowIn) && Spans(e) && Spans(f)
    requires Leaves(e) == Leaves(f) && Operators(e) == Operators(f)
    ensures e == f
  {
    AssociatedIsDerivable(LogicalOr, e, allowIn);
    AssociatedIsDerivable(LogicalOr, f, allowIn);
    TreeUnique(e, f, allowIn);
  }

  // ----- the stack

  // An operator token with the precedence that the parser notes on it.
  datatype Operator = Operator(token: Token, prec: nat)

  datatype Entry = Node(expr: Expr) | Op(operator: Operator)

  // The stack alternates the operands `es` and the operators `ops`.
  ghost predicate Alternates(stack: seq<Entry>, es: seq<Expr>, ops: seq<Operator>) {
    && |es| == |ops| + 1 && |stack| == 2 * |ops| + 1
    && (forall j {:trigger es[j]} :: 0 <= j < |es| ==> stack[2 * j] == Node(es[j]))
    && (forall j {:trigger ops[j]} :: 0 <= j < |ops| ==> stack[2 * j + 1] == Op(ops[j]))
  }

  // Every operand is a finished tree with one marker, the start of its first leaf; the operators get ever tighter
  // towards the top; and each operand may become a child of the operators beside it.
  ghost predicate StackOk(es: seq<Expr>, ops: seq<Operator>, markers: seq<int>, allowIn: bool) {
    && |es| == |ops| + 1 && |markers| == |es|
    && (forall j :: 0 <= j < |es| ==> Finished(es[j], markers[j], allowIn))
    && (forall j :: 0 <= j < |ops| ==> Fits(es[j], ops[j], es[j + 1], allowIn))
    && (forall i, j :: 0 <= i < j < |ops| ==> ops[i].prec < ops[j].prec)
  }

  ghost predicate Finished(e: Expr, marker: int, allowIn: bool) {
    Associated(e, allowIn) && Spans(e) && marker == Leaves(e)[0].start
  }

  ghost predicate Fits(left: Expr, op: Operator, right: Expr, allowIn: bool) {
    && op.prec == BinaryPrecedence(op.token, allowIn) > 0
    && BindsAtLeast(left, op.prec, allowIn) && BindsAtLeast(right, op.prec + 1, allowIn)
  }

  ghost function StackLeaves(es: seq<Expr>): seq<Expr> {
    if es == [] then [] else StackLeaves(es[..|es| - 1]) + Leaves(es[|es| - 1])
  }

  ghost function StackOperators(es: seq<Expr>, ops: seq<Operator>): seq<Token>
    requires |es| == |ops| + 1
  {
    var n := |ops|;
    if n == 0 then Operators(es[0])
    else StackOperators(es[..n], ops[..n - 1]) + [ops[n - 1].token] + Operators(es[n])
  }

  // The expression that a reduction builds.
  function Reduced(left: Expr, operator: Token, right: Expr, marker: int, index: int): (e: Expr)
    ensures e.Binary? && e.operator == operator && e.left == left && e.right == right
    ensures Leaves(e) == Leaves(left) + Leaves(right) && Operators(e) == Operators(left) + [operator] + Operators(right)
  {
    var e := CreateBinaryExpression(operator, left, right);
    Binary(e.nodeType, operator, left, right, marker, index)
  }

  // Reducing the topmost operator.
  lemma Reduce(es: seq<Expr>, ops: seq<Operator>, markers: seq<int>, allowIn: bool, index: int)
    requires StackOk(es, ops, markers, allowIn) && |ops| > 0 && EndsAt(es[|ops|], index)
    ensures
      var n := |ops|;
      var e := Reduced(es[n - 1], ops[n - 1].token, es[n], markers[n - 1], index);
      && StackOk(es[..n - 1] + [e], ops[..n - 1], markers[..n], allowIn)
      && EndsAt(e, index) && BindsAtLeast(e, ops[n - 1].prec, allowIn)
  {
    var n := |ops|;
    var left, op, right := es[n - 1], ops[n - 1], es[n];
    var e := Reduced(left, op.token, right, markers[n - 1], index);
    var es' := es[..n - 1] + [e];
    assert Fits(es[n - 1], ops[n - 1], es[n - 1 + 1], allowIn);
    assert Finished(es[n - 1], markers[n - 1], allowIn) && Finished(es[n], markers[n], allowIn);
    ReducedFinished(left, op, right, markers[n - 1], index, allowIn);
    hide Finished, Reduced, EndsAt;
    forall j | 0 <= j < n
      ensures Finished(es'[j], markers[j], allowIn)
    {
      assert j < n - 1 ==> Finished(es[j], markers[j], allowIn);
    }
    forall j | 0 <= j < n - 1
      ensures Fits(es'[j], ops[j], es'[j + 1], allowIn)
    {
      assert Fits(es[j], ops[j], es[j + 1], allowIn);
      assert ops[j].prec < ops[n - 1].prec;
    }
  }

  lemma ReduceYield(es: seq<Expr>, ops: seq<Operator>, marker: int, index: int)
    requires |ops| > 0 && |es| == |ops| + 1
    ensures
      var n := |ops|;
      var e := Reduced(es[n - 1], ops[n - 1].token, es[n], marker, index);
      var es' := es[..n - 1] + [e];
      && StackLeaves(es') == StackLeaves(es)
      && StackOperators(es', ops[..n - 1]) == StackOperators(es, ops)
  {
    hide Leaves, Operators, StackLeaves, StackOperators, Reduced;
    var n := |ops|;
    var below, left, right := es[..n - 1], es[n - 1], es[n];
    var e := Reduced(left, ops[n - 1].token, right, marker, index);
    PushLeaves(below, e);
    PushLeaves(below, left);
    PushLeaves(below + [left], right);
    assert es == below + [left] + [right];
    assert ops == ops[..n - 1] + [ops[n - 1]];
    PushOperators(below + [left], ops[..n - 1], ops[n - 1], right);
    if n == 1 {
      assert below + [e] == [e] && below + [left] == [left];
      OneOperand(e, ops[..n - 1]);
      OneOperand(left, ops[..n - 1]);
    } else {
      assert ops[..n - 1] == ops[..n - 2] + [ops[n - 2]];
      PushOperators(below, ops[..n - 2], ops[n - 2], e);
      PushOperators(below, ops[..n - 2], ops[n - 2], left);
    }
  }

  lemma PushLeaves(es: seq<Expr>, e: Expr)
    ensures StackLeaves(es + [e]) == StackLeaves(es) + Leaves(e)
  {
    assert (es + [e])[..|es|] == es;
  }

  lemma PushOperators(es: seq<Expr>, ops: seq<Operator>, op: Operator, e: Expr)
    requires |es| == |ops| + 1
    ensures StackOperators(es + [e], ops + [op]) == StackOperators(es, ops) + [op.token] + Operators(e)
  {
    assert (es + [e])[..|es|] == es && (ops + [op])[..|ops|] == ops;
  }

  lemma OneOperand(e: Expr, ops: seq<Operator>)
    requires |ops| == 0
    ensures StackOperators([e], ops) == Operators(e) && StackLeaves([e]) == Leaves(e)
  {
    PushLeaves([], e);
    assert [] + [e] == [e];
  }

  predicate EndsAt(e: Expr, index: int) {
    Leaves(e)[|Leaves(e)| - 1].end == index
  }

  lemma ReducedFinished(left: Expr, op: Operator, right: Expr, marker: int, index: int, allowIn: bool)
    requires Associated(left, allowIn) && Spans(left) && marker == Leaves(left)[0].start
    requires Associated(right, allowIn) && Spans(right) && Fits(left, op, right, allowIn)
    requires EndsAt(right, index)
    ensures var e := Reduced(left, op.token, right, marker, index);
            Finished(e, marker, allowIn) && EndsAt(e, index) && BindsAtLeast(e, op.prec, allowIn)
  {
  }

  // Pushing an operator that is tighter than the one below it, and its operand.
  lemma Shift(es: seq<Expr>, ops: seq<Operator>, markers: seq<int>, allowIn: bool, token: Token, operand: Expr)
    requires StackOk(es, ops, markers, allowIn) && operand.Operand?
    requires BinaryPrecedence(token, allowIn) > 0
    requires BindsAtLeast(es[|ops|], BinaryPrecedence(token, allowIn), allowIn)
    requires |ops| > 0 ==> ops[|ops| - 1].prec < BinaryPrecedence(token, allowIn)
    ensures
      var op := Operator(token, BinaryPrecedence(token, allowIn));
      StackOk(es + [operand], ops + [op], markers + [operand.start], allowIn)
  {
    var op := Operator(token, BinaryPrecedence(token, allowIn));
    var es', ops', markers' := es + [operand], ops + [op], markers + [operand.start];
    assert Leaves(operand) == [operand];
    assert Finished(operand, operand.start, allowIn) && Fits(es[|ops|], op, operand, allowIn);
    hide Finished, Fits, Associated, Spans, BinaryPrecedence, BindsAtLeast, Leaves, Operators;
    forall j | 0 <= j < |es'|
      ensures Finished(es'[j], markers'[j], allowIn)
    {
      assert j < |es| ==> Finished(es[j], markers[j], allowIn);
    }
    forall i, j | 0 <= i < j < |ops'|
      ensures ops'[i].prec < ops'[j].prec
    {
      assert i < |ops| - 1 ==> ops[i].prec < ops[|ops| - 1].prec;
    }
    forall j | 0 <= j < |ops'|
      ensures Fits(es'[j], ops'[j], es'[j + 1], allowIn)
    {
      assert j < |ops| ==> Fits(es[j], ops[j], es[j + 1], allowIn);
    }
  }

  lemma ShiftYield(es: seq<Expr>, ops: seq<Operator>, op: Operator, operand: Expr)
    requires |es| == |ops| + 1 && operand.Operand?
    ensures StackLeaves(es + [operand]) == StackLeaves(es) + [operand]
    ensures StackOperators(es + [operand], ops + [op]) == StackOperators(es, ops) + [op.token]
  {
    PushLeaves(es, operand);
    PushOperators(es, ops, op, operand);
  }

  // ----- the program

  class Parser {
    // The operands of the input and, after each of them, the token that follows it.
    const operands: seq<Expr>
    const following: seq<Token>

    // The operands and operators consumed so far and the end of the last consumed token.
    var next: nat
    var index: int
    // Whether `in` is an operator here.
    var allowIn: bool

    ghost predicate Valid()
      reads this
    {
      && |operands| == |following| >= 1 && next <= |operands|
      && (forall k :: 0 <= k < |operands| ==> operands[k].Operand?)
      && (next > 0 ==> index == operands[next - 1].end)
    }

    constructor (operands: seq<Expr>, following: seq<Token>, allowIn: bool)
      requires |operands| == |following| >= 1 && forall k :: 0 <= k < |operands| ==> operands[k].Operand?
      ensures Valid() && next == 0 && this.allowIn == allowIn
      ensures this.operands == operands && this.following == following
    {
      this.operands := operands;
      this.following := following;
      next, index := 0, 0;
      this.allowIn := allowIn;
    }

    // Where the next operand starts; Err stands for the error of an operator without a right operand.
    function MarkerCreate(): Result<int>
      requires Valid()
      reads this
    {
      if next < |operands| then Ok(operands[next].start) else Err("Unexpected token")
    }

    method ParseUnaryExpression() returns (expr: Expr)
      requires Valid() && next < |operands|
      modifies this
      ensures Valid() && next == old(next) + 1 && allowIn == old(allowIn)
      ensures expr == operands[old(next)]
    {
      expr := operands[next];
      index := expr.end;
      next := next + 1;
    }

    // The tree of the operands and operators up to the first token that is not a binary operator.
    method ParseBinaryExpression() returns (r: Result<Expr>)
      requires Valid() && next < |operands|
      modifies this
      ensures Valid()
      ensures r.Ok? <==> exists k :: old(next) <= k < |operands| && !IsOperator(following[k], old(allowIn))
      ensures r.Ok? ==>
                && next > old(next)
                && (forall k :: old(next) <= k < next - 1 ==> IsOperator(following[k], old(allowIn)))
                && !IsOperator(following[next - 1], old(allowIn))
                && Derives(LogicalOr, r.value, old(allowIn)) && Spans(r.value)
                && Leaves(r.value) == operands[old(next)..next]
                && Operators(r.value) == following[old(next)..next - 1]
                && allowIn == (next == old(next) + 1 || old(allowIn))
    {
      hide Associated, Spans, BinaryPrecedence, BindsAtLeast, StackOk, StackLeaves, StackOperators, Alternates, Leaves,
          Operators, IsOperator, Derives;
      var previousAllowIn := allowIn;
      forall k | 0 <= k < |operands|
        ensures IsOperator(following[k], previousAllowIn) <==> BinaryPrecedence(following[k], previousAllowIn) > 0
      {
        OperatorsAreThose(following[k], previousAllowIn);
      }
      allowIn := true;
      ghost var first := next;
      var marker := MarkerCreate().value;
      var left := ParseUnaryExpression();
      var token := following[next - 1];
      var prec := BinaryPrecedence(token, previousAllowIn);
      LeafFacts(left, previousAllowIn);
      assert operands[first..next] == [left] && following[first..next - 1] == [];
      if prec == 0 {
        AssociatedIsDerivable(LogicalOr, left, previousAllowIn);
        return Ok(left);
      }
      var operator := Operator(token, prec);
      var secondMarker := MarkerCreate();
      if secondMarker.Err? {
        return Err(secondMarker.message);
      }
      var markers := [marker, secondMarker.value];
      var right := ParseUnaryExpression();
      var stack := [Node(left), Op(operator), Node(right)];
      StackStart(left, right, operator, previousAllowIn);
      assert operands[first..next] == [left, right] && following[first..next - 1] == [token];
      r := ParseOperators(stack, markers, [left, right], [operator], previousAllowIn, first);
      if r.Ok? {
        LoosestBinds(r.value, previousAllowIn);
        AssociatedIsDerivable(LogicalOr, r.value, previousAllowIn);
      }
    }

    // The main loop, from the first operator and its two operands on.
    method ParseOperators(stack0: seq<Entry>, markers0: seq<int>, ghost es0: seq<Expr>, ghost ops0: seq<Operator>,
                          previousAllowIn: bool, ghost first: nat)
      returns (r: Result<Expr>)
      requires Valid() && first + 2 <= next && allowIn
      requires forall k :: first <= k < next - 1 ==> BinaryPrecedence(following[k], previousAllowIn) > 0
      requires |es0| == |ops0| + 1 == |markers0| && es0[|ops0|].Operand? && es0[|ops0|] == operands[next - 1]
      requires StackOk(es0, ops0, markers0, previousAllowIn) && Alternates(stack0, es0, ops0)
      requires StackLeaves(es0) == operands[first..next] && StackOperators(es0, ops0) == following[first..next - 1]
      modifies this
      ensures Valid() && first + 2 <= next
      ensures r.Err? ==> next == |operands| && BinaryPrecedence(following[next - 1], previousAllowIn) > 0
      ensures r.Ok? ==> BinaryPrecedence(following[next - 1], previousAllowIn) == 0 && allowIn == previousAllowIn
      ensures forall k :: first <= k < next - 1 ==> BinaryPrecedence(following[k], previousAllowIn) > 0
      ensures r.Ok? ==>
                && Associated(r.value, previousAllowIn) && Spans(r.value)
                && Leaves(r.value) == operands[first..next] && Operators(r.value) == following[first..next - 1]
    {
      hide Associated, Spans, BinaryPrecedence, BindsAtLeast, StackOk, StackLeaves, StackOperators, Alternates, Leaves,
          Operators;
      var stack, markers := stack0, markers0;
      ghost var es, ops := es0, ops0;
      var prec := BinaryPrecedence(following[next - 1], previousAllowIn);
      while prec > 0
        invariant Valid() && first + 2 <= next && allowIn
        invariant prec == BinaryPrecedence(following[next - 1], previousAllowIn)
        invariant forall k :: first <= k < next - 1 ==> BinaryPrecedence(following[k], previousAllowIn) > 0
        invariant |es| == |ops| + 1 == |markers|
        invariant StackOk(es, ops, markers, previousAllowIn) && Alternates(stack, es, ops)
        invariant es[|ops|].Operand? && es[|ops|] == operands[next - 1]
        invariant StackLeaves(es) == operands[first..next] && StackOperators(es, ops) == following[first..next - 1]
        decreases |operands| - next
      {
        LeafFacts(es[|ops|], previousAllowIn);
        stack, markers, es, ops := ReduceWhile(stack, markers, es, ops, prec, previousAllowIn);
        if next == |operands| {
          return Err("Unexpected token");
        }
        stack, markers, es, ops := ShiftOne(stack, markers, es, ops, prec, previousAllowIn);
        assert operands[first..next] == operands[first..next - 1] + [operands[next - 1]];
        assert following[first..next - 1] == following[first..next - 2] + [following[next - 2]];
        prec := BinaryPrecedence(following[next - 1], previousAllowIn);
      }
      LeafFacts(es[|ops|], previousAllowIn);
      allowIn := previousAllowIn;
      var expr := ReduceAll(stack, markers, es, ops, previousAllowIn);
      r := Ok(expr);
    }

    // Pushes the next operator, a marker and the operand after it.
    method ShiftOne(stack0: seq<Entry>, markers0: seq<int>, ghost es0: seq<Expr>, ghost ops0: seq<Operator>, prec: nat,
                    inOperator: bool)
      returns (stack: seq<Entry>, markers: seq<int>, ghost es: seq<Expr>, ghost ops: seq<Operator>)
      requires Valid() && 0 < next < |operands| && prec == BinaryPrecedence(following[next - 1], inOperator) > 0
      requires StackOk(es0, ops0, markers0, inOperator) && Alternates(stack0, es0, ops0)
      requires |es0| == |ops0| + 1 == |markers0|
      requires BindsAtLeast(es0[|ops0|], prec, inOperator) && (|ops0| > 0 ==> ops0[|ops0| - 1].prec < prec)
      modifies this
      ensures Valid() && next == old(next) + 1 && allowIn == old(allowIn)
      ensures StackOk(es, ops, markers, inOperator) && Alternates(stack, es, ops) && |es| == |ops| + 1 == |markers|
      ensures es[|ops|].Operand? && es[|ops|] == operands[next - 1]
      ensures StackLeaves(es) == StackLeaves(es0) + [operands[next - 1]]
      ensures StackOperators(es, ops) == StackOperators(es0, ops0) + [following[next - 2]]
    {
      hide Associated, Spans, BinaryPrecedence, BindsAtLeast, StackOk, StackLeaves, StackOperators, Alternates;
      var op := Operator(following[next - 1], prec);
      var marker := MarkerCreate().value;
      var expr := ParseUnaryExpression();
      Shift(es0, ops0, markers0, inOperator, op.token, expr);
      ShiftYield(es0, ops0, op, expr);
      AlternatesShift(stack0, es0, ops0, op, expr);
      stack, markers := stack0 + [Op(op), Node(expr)], markers0 + [marker];
      es, ops := es0 + [expr], ops0 + [op];
    }

    // The inner loop: reduces while the top operator binds at least as tightly as the next one.
    method ReduceWhile(stack0: seq<Entry>, markers0: seq<int>, ghost es0: seq<Expr>, ghost ops0: seq<Operator>,
                       prec: nat, inOperator: bool)
      returns (stack: seq<Entry>, markers: seq<int>, ghost es: seq<Expr>, ghost ops: seq<Operator>)
      requires StackOk(es0, ops0, markers0, inOperator) && Alternates(stack0, es0, ops0)
      requires |es0| == |ops0| + 1 == |markers0| && es0[|ops0|].Operand? && EndsAt(es0[|ops0|], index)
      ensures StackOk(es, ops, markers, inOperator) && Alternates(stack, es, ops) && |es| == |ops| + 1 == |markers|
      ensures StackLeaves(es) == StackLeaves(es0) && StackOperators(es, ops) == StackOperators(es0, ops0)
      ensures BindsAtLeast(es[|ops|], prec, inOperator)
      ensures |ops| > 0 ==> ops[|ops| - 1].prec < prec
    {
      hide Associated, Spans, BinaryPrecedence, StackOk, StackLeaves, StackOperators, Reduced, Alternates, Leaves;
      stack, markers, es, ops := stack0, markers0, es0, ops0;
      AlternatesTop(stack, es, ops);
      while |stack| > 2 && prec <= stack[|stack| - 2].operator.prec
        invariant StackOk(es, ops, markers, inOperator) && Alternates(stack, es, ops) && |es| == |ops| + 1 == |markers|
        invariant |stack| > 2 ==> stack[|stack| - 2].Op?
        invariant |stack| == 2 * |ops| + 1 && (|ops| > 0 ==> stack[|stack| - 2].operator == ops[|ops| - 1])
        invariant StackLeaves(es) == StackLeaves(es0) && StackOperators(es, ops) == StackOperators(es0, ops0)
        invariant EndsAt(es[|ops|], index) && BindsAtLeast(es[|ops|], prec, inOperator)
        decreases |stack|
      {
        ghost var top := ops[|ops| - 1].prec;
        stack, markers, es, ops := ReduceOne(stack, markers, es, ops, index, inOperator);
        AlternatesTop(stack, es, ops);
        BindsLess(es[|ops|], top, prec, inOperator);
      }
    }

    // The final clean-up: folds the stack from the top, without popping it.
    method ReduceAll(stack: seq<Entry>, markers0: seq<int>, ghost es0: seq<Expr>, ghost ops0: seq<Operator>,
                     inOperator: bool)
      returns (expr: Expr)
      requires StackOk(es0, ops0, markers0, inOperator) && Alternates(stack, es0, ops0)
      requires |es0| == |ops0| + 1 == |markers0|
      requires EndsAt(es0[|ops0|], index)
      ensures Associated(expr, inOperator) && Spans(expr)
      ensures Leaves(expr) == StackLeaves(es0) && Operators(expr) == StackOperators(es0, ops0)
    {
      hide Associated, Spans, BinaryPrecedence, StackOk, StackLeaves, StackOperators, Alternates, Leaves, EndsAt,
          Operators, BindsAtLeast;
      ghost var es, ops := es0, ops0;
      AlternatesTop(stack, es, ops);
      var i := |stack| - 1;
      expr := stack[i].expr;
      var markers := markers0[..|markers0| - 1];
      assert stack[..i] + [Node(expr)] == stack;
      assert markers + [markers0[|markers0| - 1]] == markers0;
      ghost var last := markers0[|markers0| - 1];
      while i > 1
        invariant i == 2 * |ops| && i < |stack| && |es| == |ops| + 1 && expr == es[|ops|] && |markers| == |ops|
        invariant Alternates(stack[..i] + [Node(expr)], es, ops)
        invariant StackOk(es, ops, markers + [last], inOperator) && EndsAt(expr, index)
        invariant StackLeaves(es) == StackLeaves(es0) && StackOperators(es, ops) == StackOperators(es0, ops0)
        decreases i
      {
        ghost var whole := stack[..i] + [Node(expr)];
        AlternatesTop(whole, es, ops);
        assert stack[i - 1] == whole[|whole| - 2] && stack[i - 2] == whole[|whole| - 3];
        var marker := markers[|markers| - 1];
        Reduce(es, ops, markers + [last], inOperator, index);
        ReduceYield(es, ops, marker, index);
        var n := i / 2;
        expr := Reduced(stack[i - 2].expr, stack[i - 1].operator.token, expr, marker, index);
        AlternatesReduce(whole, es, ops, expr);
        assert whole[..|whole| - 3] == stack[..i - 2];
        es, ops := es[..n - 1] + [expr], ops[..n - 1];
        assert (markers + [last])[..n] == markers[..n - 1] + [marker];
        i := i - 2;
        last := marker;
        markers := markers[..|markers| - 1];
      }
      WholeStack(es, ops, markers + [last], inOperator);
      assert es == [expr];
    }
  }

  // Pops the top two operands and the operator between them and pushes the node that they make.
  method ReduceOne(stack0: seq<Entry>, markers0: seq<int>, ghost es0: seq<Expr>, ghost ops0: seq<Operator>, index: int,
                   allowIn: bool)
    returns (stack: seq<Entry>, markers: seq<int>, ghost es: seq<Expr>, ghost ops: seq<Operator>)
    requires StackOk(es0, ops0, markers0, allowIn) && Alternates(stack0, es0, ops0)
    requires |es0| == |ops0| + 1 == |markers0| && |ops0| > 0 && EndsAt(es0[|ops0|], index)
    ensures |es| == |ops| + 1 == |markers| && ops == ops0[..|ops0| - 1]
    ensures StackOk(es, ops, markers, allowIn) && Alternates(stack, es, ops)
    ensures StackLeaves(es) == StackLeaves(es0) && StackOperators(es, ops) == StackOperators(es0, ops0)
    ensures EndsAt(es[|ops|], index) && BindsAtLeast(es[|ops|], ops0[|ops0| - 1].prec, allowIn)
  {
    hide Associated, Spans, BinaryPrecedence, StackOk, StackLeaves, StackOperators, Alternates, Leaves, EndsAt,
        Operators, BindsAtLeast;
    AlternatesTop(stack0, es0, ops0);
    var n, m := |stack0|, |markers0|;
    var right, operator, left := stack0[n - 1].expr, stack0[n - 2].operator, stack0[n - 3].expr;
    var marker := markers0[m - 2];
    var expr := Reduced(left, operator.token, right, marker, index);
    stack := stack0[..n - 3] + [Node(expr)];
    markers := markers0[..m - 2] + [marker];
    Reduce(es0, ops0, markers0, allowIn, index);
    ReduceYield(es0, ops0, marker, index);
    AlternatesReduce(stack0, es0, ops0, expr);
    es, ops := es0[..|ops0| - 1] + [expr], ops0[..|ops0| - 1];
    assert markers == markers0[..m - 1];
  }

  lemma AlternatesTop(stack: seq<Entry>, es: seq<Expr>, ops: seq<Operator>)
    requires Alternates(stack, es, ops)
    ensures |es| == |ops| + 1 && |stack| == 2 * |ops| + 1
    ensures stack[|stack| - 1] == Node(es[|ops|])
    ensures |ops| > 0 ==> stack[|stack| - 2] == Op(ops[|ops| - 1]) && stack[|stack| - 3] == Node(es[|ops| - 1])
  {
  }

  lemma AlternatesReduce(stack: seq<Entry>, es: seq<Expr>, ops: seq<Operator>, expr: Expr)
    requires Alternates(stack, es, ops) && |ops| > 0
    ensures Alternates(stack[..|stack| - 3] + [Node(expr)], es[..|ops| - 1] + [expr], ops[..|ops| - 1])
  {
    var stack', es' := stack[..|stack| - 3] + [Node(expr)], es[..|ops| - 1] + [expr];
    forall j {:trigger es'[j]} | 0 <= j < |es'|
      ensures stack'[2 * j] == Node(es'[j])
    {
      assert j < |ops| - 1 ==> stack[2 * j] == Node(es[j]);
    }
  }

  lemma AlternatesShift(stack: seq<Entry>, es: seq<Expr>, ops: seq<Operator>, op: Operator, expr: Expr)
    requires Alternates(stack, es, ops)
    ensures Alternates(stack + [Op(op), Node(expr)], es + [expr], ops + [op])
  {
  }

  lemma WholeStack(es: seq<Expr>, ops: seq<Operator>, markers: seq<int>, allowIn: bool)
    requires StackOk(es, ops, markers, allowIn) && |ops| == 0
    ensures |es| == 1 && Associated(es[0], allowIn) && Spans(es[0])
    ensures StackLeaves(es) == Leaves(es[0]) && StackOperators(es, ops) == Operators(es[0])
  {
    OneOperand(es[0], ops);
    assert es == [es[0]];
    assert Finished(es[0], markers[0], allowIn);
  }

  lemma StackStart(left: Expr, right: Expr, operator: Operator, allowIn: bool)
    requires left.Operand? && right.Operand? && operator.prec == BinaryPrecedence(operator.token, allowIn) > 0
    ensures StackOk([left, right], [operator], [left.start, right.start], allowIn)
    ensures Alternates([Node(left), Op(operator), Node(right)], [left, right], [operator])
    ensures StackLeaves([left, right]) == [left, right] && StackOperators([left, right], [operator]) == [operator.token]
  {
    PushLeaves([left], right);
    OneOperand(left, []);
    PushOperators([left], [], operator, right);
    assert [left] + [right] == [left, right] && [] + [operator] == [operator];
    assert Fits([left, right][0], operator, [left, right][0 + 1], allowIn);
  }

  lemma LeafFacts(e: Expr, allowIn: bool)
    requires e.Operand?
    ensures Associated(e, allowIn) && Spans(e) && Leaves(e) == [e] && Operators(e) == []
    ensures EndsAt(e, e.end)
    ensures forall prec: nat :: BindsAtLeast(e, prec, allowIn)
  {
  }

  lemma BindsLess(e: Expr, prec: nat, prec': nat, allowIn: bool)
    requires BindsAtLeast(e, prec, allowIn) && prec' <= prec
    ensures BindsAtLeast(e, prec', allowIn)
  {
  }
}

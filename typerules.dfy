/** The type rules of checkNode (analyze.c), as pure functions of what the
    checker reads off the nodes: each operand's type and whether it
    carries an index. */
module TypeRules {
  import opened Wrappers
  import opened Tree

  /** An expression node as the checker sees it: its type, and whether it
      is indexed (its first child slot is filled, as in `a[i]`). */
  datatype Operand = Operand(ty: ExpType, indexed: bool)

  /** The type an operand contributes to arithmetic and to argument
      passing: an indexed array element counts as Integer. */
  function Decay(o: Operand): ExpType
  {
    if o.ty == IntegerArray && o.indexed then Integer else o.ty
  }

  /** if and while: a condition is rejected only when it is missing or
      Void, so an array, indexed or not, is accepted. */
  function ConditionRejected(cond: Option<ExpType>): (r: bool)
    ensures !r <==> cond == Some(Integer) || cond == Some(IntegerArray)
  {
    cond.None? || cond.value == Void
  }

  /** The return rule as written: the returned type is compared without
      letting an indexed element count as Integer. */
  function ReturnRejectedAsWritten(funcType: ExpType, value: Option<Operand>): (r: bool)
    ensures funcType == Void ==> (r <==> value.Some?)
    ensures funcType == Integer ==> (!r <==> value.Some? && value.value.ty == Integer)
    ensures funcType == IntegerArray ==> !r
  {
    || (funcType == Void && value.Some?)
    || (funcType == Integer && (value.None? || value.value.ty == Void || value.value.ty == IntegerArray))
  }

  /** `int f(int a[]) { return a[0]; }`: the element `a[0]` carries the
      array's type, and the rule as written rejects it. */
  lemma ReturnOfElementRejectedAsWritten()
    ensures ReturnRejectedAsWritten(Integer, Some(Operand(IntegerArray, true)))
    ensures Decay(Operand(IntegerArray, true)) == Integer
  {
  }

  /** The return rule, with an indexed element counting as Integer as in
      every other rule: a Void function returns nothing, an Integer
      function returns an Integer value. */
  function ReturnRejected(funcType: ExpType, value: Option<Operand>): (r: bool)
    ensures funcType == Void ==> (r <==> value.Some?)
    ensures funcType == Integer ==> (!r <==> value.Some? && Decay(value.value) == Integer)
    ensures funcType == IntegerArray ==> !r
  {
    || (funcType == Void && value.Some?)
    || (funcType == Integer && (value.None? || Decay(value.value) != Integer))
  }

  /** The correction changes nothing but the verdict on a returned indexed
      element. */
  lemma ReturnCorrectionOnlyForElements(funcType: ExpType, value: Option<Operand>)
    ensures value.None? || !value.value.indexed || value.value.ty != IntegerArray ==>
      ReturnRejected(funcType, value) == ReturnRejectedAsWritten(funcType, value)
    ensures ReturnRejected(funcType, value) != ReturnRejectedAsWritten(funcType, value) ==>
      funcType == Integer && value == Some(Operand(IntegerArray, true))
  {
  }

  /** Assignment: rejected (None) unless both sides are Integer once
      indexed elements count as Integer, that is, unless neither side is
      Void or an unindexed array; an accepted assignment takes the left
      side's type, IntegerArray for `a[i] = …`. */
  function AssignType(lhs: Operand, rhs: Operand): (r: Option<ExpType>)
    ensures r.Some? <==> Decay(lhs) == Integer && Decay(rhs) == Integer
    ensures r.Some? ==> r.value == lhs.ty
  {
    if lhs.ty == Void || rhs.ty == Void then None
    else if lhs.ty == IntegerArray && !lhs.indexed then None
    else if rhs.ty == IntegerArray && !rhs.indexed then None
    else Some(lhs.ty)
  }

  /** Binary operator: accepted, with type Integer, when both operands are
      Integer once indexed elements count as Integer, and also when both
      are unindexed arrays; rejected (None) otherwise. */
  function OpType(l: Operand, r: Operand): (t: Option<ExpType>)
    ensures t.Some? ==> t.value == Integer
    ensures t.Some? <==>
      || (Decay(l) == Integer && Decay(r) == Integer)
      || (l.ty == IntegerArray && !l.indexed && r.ty == IntegerArray && !r.indexed)
  {
    var lt := Decay(l);
    var rt := Decay(r);
    if lt == Void || rt == Void || lt != rt then None else Some(Integer)
  }

  /** The operator rule does not depend on the order of the operands. */
  lemma OpTypeSymmetric(l: Operand, r: Operand)
    ensures OpType(l, r) == OpType(r, l)
  {
  }

  /** `x[i]` is allowed on a symbol whose declaring node has kind `k`
      unless that node declares a scalar variable, a function or a scalar
      parameter. */
  function Indexable(k: NodeKind): (r: bool)
    ensures r <==> k == DeclK(ArrVarK) || k == ParamK(ArrParamK) || !(k.DeclK? || k.ParamK?)
  {
    !((k.DeclK? && k.decl != ArrVarK) || (k.ParamK? && k.param != ArrParamK))
  }

  /** A parameter as the call check sees it: its type, and whether its
      type specifier is `void` (the `(void)` parameter list). */
  datatype Param = Param(ty: ExpType, isVoid: bool)

  /** The outcome of a call's argument check: accepted, rejected at the
      argument with this index, or short of arguments. */
  datatype CallVerdict = CallOk | BadArgument(index: nat) | MissingArguments

  /** Argument `i` has a parameter, is not Void, and has the parameter's
      type once an indexed element counts as Integer. */
  predicate ArgMatches(args: seq<Operand>, params: seq<Param>, i: nat)
    requires i < |args|
  {
    i < |params| && args[i].ty != Void && params[i].ty == Decay(args[i])
  }

  /** The argument loop from argument `i` on: the first argument without a
      matching parameter stops it; when the arguments run out, a next
      parameter that is not `void` means the call is short. */
  function CheckArgsFrom(args: seq<Operand>, params: seq<Param>, i: nat): (r: CallVerdict)
    requires i <= |args|
    ensures r.BadArgument? ==> i <= r.index < |args|
    ensures r == MissingArguments ==> |args| < |params|
    decreases |args| - i
  {
    if i == |args| then
      if i < |params| && !params[i].isVoid then MissingArguments else CallOk
    else if i >= |params| || args[i].ty == Void then BadArgument(i)
    else if params[i].ty != Decay(args[i]) then BadArgument(i)
    else CheckArgsFrom(args, params, i + 1)
  }

  /** The argument loop of checkNode on a call: a rejected argument is
      one of the call's, and a short call has fewer arguments than the
      callee has parameters. */
  function CheckArgs(args: seq<Operand>, params: seq<Param>): (r: CallVerdict)
    ensures r.BadArgument? ==> r.index < |args|
    ensures r == MissingArguments ==> |args| < |params|
  {
    CheckArgsFrom(args, params, 0)
  }

  /** The call is short: every argument matched and a non-`void`
      parameter follows the last one. */
  predicate ShortOfArguments(args: seq<Operand>, params: seq<Param>)
  {
    |args| < |params| && !params[|args|].isVoid
  }

  /** What the argument loop decides, stated without the loop: a call is
      accepted exactly when every argument matches and it is not short; it
      is rejected at the first argument that does not match; and it is
      short when every argument matches but a non-`void` parameter is
      left. */
  lemma CheckArgsVerdict(args: seq<Operand>, params: seq<Param>)
    ensures CheckArgs(args, params) == CallOk <==>
      (forall i :: 0 <= i < |args| ==> ArgMatches(args, params, i)) && !ShortOfArguments(args, params)
    ensures CheckArgs(args, params) == MissingArguments <==>
      (forall i :: 0 <= i < |args| ==> ArgMatches(args, params, i)) && ShortOfArguments(args, params)
    ensures CheckArgs(args, params).BadArgument? ==>
      var k := CheckArgs(args, params).index;
      k < |args| && !ArgMatches(args, params, k) && forall i :: 0 <= i < k ==> ArgMatches(args, params, i)
  {
    CheckArgsFromVerdict(args, params, 0);
  }

  lemma {:induction false} CheckArgsFromVerdict(args: seq<Operand>, params: seq<Param>, n: nat)
    requires n <= |args|
    ensures CheckArgsFrom(args, params, n) == CallOk <==>
      (forall i :: n <= i < |args| ==> ArgMatches(args, params, i)) && !ShortOfArguments(args, params)
    ensures CheckArgsFrom(args, params, n) == MissingArguments <==>
      (forall i :: n <= i < |args| ==> ArgMatches(args, params, i)) && ShortOfArguments(args, params)
    ensures CheckArgsFrom(args, params, n).BadArgument? ==>
      var k := CheckArgsFrom(args, params, n).index;
      n <= k < |args| && !ArgMatches(args, params, k) && forall i :: n <= i < k ==> ArgMatches(args, params, i)
    decreases |args| - n
  {
    if n < |args| && ArgMatches(args, params, n) {
      CheckArgsFromVerdict(args, params, n + 1);
    }
  }

  /** The line the short-call error is reported at, as written
      (`typeError(t->child[0], …)`): the first argument's line, and no
      line at all, a NULL dereference, when the call has no argument. */
  function MissingArgumentsLineAsWritten(argLines: seq<int>): Option<int>
  {
    if |argLines| == 0 then None else Some(argLines[0])
  }

  /** `void f(int x) { } … f();` is short of arguments and has no first
      argument to report at. */
  lemma ZeroArgumentShortCallAsWritten()
    ensures CheckArgs([], [Param(Integer, false)]) == MissingArguments
    ensures MissingArgumentsLineAsWritten([]).None?
  {
  }

  /** The short-call error's line, corrected: as written when the call has
      an argument, the call's own line when it has none. */
  function MissingArgumentsLine(callLine: int, argLines: seq<int>): (r: int)
    ensures |argLines| > 0 ==> MissingArgumentsLineAsWritten(argLines) == Some(r)
    ensures |argLines| == 0 ==> r == callLine
  {
    if |argLines| == 0 then callLine else argLines[0]
  }
}

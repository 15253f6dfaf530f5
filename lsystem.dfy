/**
 * The L-system evaluator: rules are chosen by weighted random draws, and a
 * stack of (rule, depth, matrix) entries is expanded until it is empty.
 * Expanding an entry runs its rule's statements in order: each statement's
 * transform is multiplied into the entry's matrix once per repetition, a
 * `call` pushes the chosen rule one level deeper with a copy of the matrix,
 * an `instance` emits a shape.
 *
 * The XML document arrives already parsed: attributes are typed values,
 * `None` where absent. The random generator seeded by `seed` is the
 * `stream` of its raw outputs; `randint(0, hi)` on the `k`-th draw gives
 * `stream(k) % (hi + 1)`. The loop is given `fuel`, a bound on the number
 * of entries it pops, because nothing in the rules guarantees it ends.
 */
module LSystem {
  import opened Wrappers
  import opened LSystemXform

  // ---------------------------------------------------------------------
  // The rules

  /** A `call` or `instance` element (any other tag is malformed). */
  datatype Statement = Statement(
    tag: string,
    transforms: Option<string>,
    count: Option<int>,
    rule: Option<string>,    // what a `call` calls
    shape: Option<string>)   // what an `instance` emits

  datatype Rule = Rule(
    name: Option<string>,
    weight: Option<int>,
    maxDepth: Option<int>,
    successor: Option<string>,
    body: seq<Statement>)

  /** The `rules` element: its `max_depth` and its rules in document order. */
  datatype Tree = Tree(maxDepth: Option<int>, rules: seq<Rule>)

  datatype Entry = Entry(rule: Rule, depth: int, matrix: Matrix)

  datatype Shape = Shape(name: Option<string>, matrix: Matrix)

  datatype EvalError =
    | NoRule(name: Option<string>)    // the source quits
    | EmptyRange                      // `randint(0, sum - 1)` with a sum below 1
    | BadTransform(reason: XformError)
    | Malformed(tag: string)          // the source quits
    | NoMaxDepth                      // `int(None)`
    | OutOfFuel

  // ---------------------------------------------------------------------
  // Weighted choice

  /** The rules with the given name, in document order. */
  function Candidates(rules: seq<Rule>, name: Option<string>): (r: seq<Rule>)
    ensures forall x :: x in r ==> x in rules && x.name == name
    ensures forall x :: x in rules && x.name == name ==> x in r
  {
    if |rules| == 0 then []
    else
      var before := Candidates(rules[..|rules| - 1], name);
      var last := rules[|rules| - 1];
      assert rules == rules[..|rules| - 1] + [last];
      if last.name == name then before + [last] else before
  }

  /** A rule's weight, 1 when it gives none. */
  function Weight(r: Rule): int
  {
    r.weight.GetOr(1)
  }

  /** The sum of the weights. */
  function Total(c: seq<Rule>): int
  {
    if |c| == 0 then 0 else Weight(c[0]) + Total(c[1..])
  }

  /**
   * The weight loop: the first candidate whose weight exceeds what is left
   * of `n`, or the last one when none does.
   */
  function Choose(c: seq<Rule>, n: int): (k: nat)
    requires |c| >= 1
    ensures k < |c|
  {
    if |c| == 1 || n < Weight(c[0]) then 0 else 1 + Choose(c[1..], n - Weight(c[0]))
  }

  /** A chosen rule and the number of draws made so far. */
  datatype Picked = Picked(rule: Rule, drawn: nat)

  /** `randint(0, hi)` on the `drawn`-th draw. */
  function RandInt(stream: nat -> nat, drawn: nat, hi: nat): (n: nat)
    ensures n <= hi
  {
    stream(drawn) % (hi + 1)
  }

  /** `pick_rule`: one draw among the rules with the name, by weight. */
  function Pick(rules: seq<Rule>, name: Option<string>, stream: nat -> nat, drawn: nat): (r: Result<Picked, EvalError>)
    ensures r.Ok? <==> |Candidates(rules, name)| >= 1 && Total(Candidates(rules, name)) >= 1
    ensures r.Ok? ==> r.value.rule in rules && r.value.rule.name == name && r.value.drawn == drawn + 1
    ensures Candidates(rules, name) == [] ==> r == Err(NoRule(name))
  {
    var c := Candidates(rules, name);
    if |c| == 0 then Err(NoRule(name))
    else if Total(c) < 1 then Err(EmptyRange)
    else Ok(Picked(c[Choose(c, RandInt(stream, drawn, Total(c) - 1))], drawn + 1))
  }

  /** The weights of the candidates before position `k`. */
  function Before(c: seq<Rule>, k: nat): int
    requires k <= |c|
  {
    Total(c[..k])
  }

  /**
   * With weights that are not negative, a draw `n` below the total picks
   * candidate `k` exactly when `n` falls in `k`'s share of the range:
   * `k` is chosen by `Weight(c[k])` of the `Total(c)` possible draws.
   */
  lemma {:induction false} ChooseWeighted(c: seq<Rule>, n: int, k: nat)
    requires |c| >= 1 && k < |c| && 0 <= n < Total(c)
    requires forall i :: 0 <= i < |c| ==> Weight(c[i]) >= 0
    ensures Choose(c, n) == k <==> Before(c, k) <= n < Before(c, k) + Weight(c[k])
  {
    assert c[..0] == [];
    if |c| == 1 {
      assert c[1..] == [];
    } else if n < Weight(c[0]) {
      if k > 0 {
        BeforeStep(c, k);
        BeforeNonNegative(c[1..], k - 1);
      }
    } else {
      if k > 0 {
        BeforeStep(c, k);
        ChooseWeighted(c[1..], n - Weight(c[0]), k - 1);
        assert c[1..][k - 1] == c[k];
      }
    }
  }

  lemma BeforeStep(c: seq<Rule>, k: nat)
    requires 1 <= k <= |c|
    ensures Before(c, k) == Weight(c[0]) + Before(c[1..], k - 1)
  {
    assert c[..k][1..] == c[1..][..k - 1];
  }

  lemma {:induction false} BeforeNonNegative(c: seq<Rule>, k: nat)
    requires k <= |c|
    requires forall i :: 0 <= i < |c| ==> Weight(c[i]) >= 0
    ensures Before(c, k) >= 0
  {
    if k > 0 {
      BeforeStep(c, k);
      BeforeNonNegative(c[1..], k - 1);
    }
  }

  lemma {:induction false} TotalAppend(c: seq<Rule>, x: Rule)
    ensures Total(c + [x]) == Total(c) + Weight(x)
  {
    if |c| > 0 {
      assert (c + [x])[1..] == c[1..] + [x];
      TotalAppend(c[1..], x);
    }
  }

  /** `pick_rule`: collect the candidates, sum their weights, draw, walk the weights. */
  method PickRule(rules: seq<Rule>, name: Option<string>, stream: nat -> nat, drawn: nat)
    returns (r: Result<Picked, EvalError>)
    ensures r == Pick(rules, name, stream, drawn)
  {
    var elements := Collect(rules, name);
    if |elements| == 0 {
      return Err(NoRule(name));
    }
    var sum := SumWeights(elements);
    if sum - 1 < 0 {
      return Err(EmptyRange);
    }
    var n := stream(drawn) % sum;
    var k := Walk(elements, n);
    r := Ok(Picked(elements[k], drawn + 1));
  }

  /** The first loop: the rules whose name matches. */
  method Collect(rules: seq<Rule>, name: Option<string>) returns (elements: seq<Rule>)
    ensures elements == Candidates(rules, name)
  {
    elements := [];
    for i := 0 to |rules|
      invariant elements == Candidates(rules[..i], name)
    {
      assert rules[..i + 1][..i] == rules[..i];
      if rules[i].name == name {
        elements := elements + [rules[i]];
      }
    }
    assert rules[..|rules|] == rules;
  }

  /** The second loop: the sum of the weights. */
  method SumWeights(elements: seq<Rule>) returns (sum: int)
    ensures sum == Total(elements)
  {
    sum := 0;
    for i := 0 to |elements|
      invariant sum == Total(elements[..i])
    {
      assert elements[..i + 1] == elements[..i] + [elements[i]];
      TotalAppend(elements[..i], elements[i]);
      sum := sum + Weight(elements[i]);
    }
    assert elements[..|elements|] == elements;
  }

  /** The third loop: subtract weights from the draw until it falls below one. */
  method Walk(elements: seq<Rule>, n: int) returns (k: nat)
    requires |elements| >= 1
    ensures k == Choose(elements, n)
  {
    var left := n;
    k := 0;
    assert elements[k..] == elements;
    while k < |elements| - 1 && left >= Weight(elements[k])
      invariant 0 <= k < |elements|
      invariant Choose(elements, n) == k + Choose(elements[k..], left)
    {
      assert elements[k..][1..] == elements[k + 1..];
      left := left - Weight(elements[k]);
      k := k + 1;
    }
  }

  // ---------------------------------------------------------------------
  // Expanding one entry

  /** `matrix` multiplied by `x`, `k` times. */
  function Power(x: Matrix, k: nat): Matrix
  {
    if k == 0 then [] else x + Power(x, k - 1)
  }

  /**
   * The state of one expansion: the live matrix, the entries pushed so far,
   * the instances emitted so far, each with the matrix current when it was
   * emitted, and the draws made.
   */
  datatype Acc = Acc(matrix: Matrix, pushes: seq<Entry>, instances: seq<Shape>, drawn: nat)

  /** One repetition of a statement: multiply in the transform, then call or emit. */
  function Step(rules: seq<Rule>, st: Statement, x: Matrix, depth: int, acc: Acc, stream: nat -> nat): Result<Acc, EvalError>
  {
    var m := acc.matrix + x;
    if st.tag == "call" then
      match Pick(rules, st.rule, stream, acc.drawn)
      case Err(e) => Err(e)
      case Ok(p) => Ok(Acc(m, acc.pushes + [Entry(p.rule, depth + 1, m)], acc.instances, p.drawn))
    else if st.tag == "instance" then
      Ok(Acc(m, acc.pushes, acc.instances + [Shape(st.shape, m)], acc.drawn))
    else Err(Malformed(st.tag))
  }

  /** The statement repeated `k` times (not at all when `k` is not positive). */
  function Repeat(rules: seq<Rule>, st: Statement, x: Matrix, k: int, depth: int, acc: Acc, stream: nat -> nat): Result<Acc, EvalError>
    decreases k
  {
    if k <= 0 then Ok(acc)
    else match Step(rules, st, x, depth, acc, stream)
      case Err(e) => Err(e)
      case Ok(a) => Repeat(rules, st, x, k - 1, depth, a, stream)
  }

  /** The statements in order, each with its transform and count (default 1). */
  function Statements(rules: seq<Rule>, body: seq<Statement>, depth: int, acc: Acc, stream: nat -> nat,
                      number: string -> Option<real>): Result<Acc, EvalError>
    decreases |body|
  {
    if |body| == 0 then Ok(acc)
    else match Xform(body[0].transforms.GetOr(""), number)
      case Err(e) => Err(BadTransform(e))
      case Ok(x) =>
        match Repeat(rules, body[0], x, body[0].count.GetOr(1), depth, acc, stream)
        case Err(e) => Err(e)
        case Ok(a) => Statements(rules, body[1..], depth, a, stream, number)
  }

  /** What popping one entry produces. */
  datatype Expansion = Expansion(pushes: seq<Entry>, shapes: seq<Shape>, drawn: nat)

  /**
   * The shapes an expansion emits, as the source leaves them: every one
   * holds the expansion's live matrix itself, so each ends up with that
   * matrix's final value.
   */
  function Shared(instances: seq<Shape>, m: Matrix): (r: seq<Shape>)
    ensures |r| == |instances|
    ensures forall i :: 0 <= i < |r| ==> r[i] == Shape(instances[i].name, m)
  {
    seq(|instances|, i requires 0 <= i < |instances| => Shape(instances[i].name, m))
  }

  /**
   * Popping an entry while `below` entries remain under it: discarded when
   * the stack is full, replaced by its successor (or dropped) at its
   * rule's depth limit, otherwise expanded.
   */
  function Expand(rules: seq<Rule>, maxDepth: int, e: Entry, below: nat, drawn: nat, stream: nat -> nat,
                  number: string -> Option<real>): Result<Expansion, EvalError>
  {
    if below >= maxDepth then Ok(Expansion([], [], drawn))
    else if e.depth >= e.rule.maxDepth.GetOr(maxDepth) then
      match e.rule.successor
      case None => Ok(Expansion([], [], drawn))
      case Some(s) =>
        match Pick(rules, Some(s), stream, drawn)
        case Err(err) => Err(err)
        case Ok(p) => Ok(Expansion([Entry(p.rule, 0, e.matrix)], [], p.drawn))
    else
      match Statements(rules, e.rule.body, e.depth, Acc(e.matrix, [], [], drawn), stream, number)
      case Err(err) => Err(err)
      case Ok(a) => Ok(Expansion(a.pushes, Shared(a.instances, a.matrix), a.drawn))
  }

  /**
   * The expansion with each shape given a copy of the matrix at the time
   * it is emitted.
   */
  function ExpandCopied(rules: seq<Rule>, maxDepth: int, e: Entry, below: nat, drawn: nat, stream: nat -> nat,
                        number: string -> Option<real>): Result<Expansion, EvalError>
  {
    if below >= maxDepth || e.depth >= e.rule.maxDepth.GetOr(maxDepth) then
      Expand(rules, maxDepth, e, below, drawn, stream, number)
    else
      match Statements(rules, e.rule.body, e.depth, Acc(e.matrix, [], [], drawn), stream, number)
      case Err(err) => Err(err)
      case Ok(a) => Ok(Expansion(a.pushes, a.instances, a.drawn))
  }

  /** Expanding the popped entry: the depth checks, then the statement loops. */
  method ExpandEntry(rules: seq<Rule>, maxDepth: int, e: Entry, below: nat, drawn: nat, stream: nat -> nat,
                     number: string -> Option<real>) returns (r: Result<Expansion, EvalError>)
    ensures r == Expand(rules, maxDepth, e, below, drawn, stream, number)
  {
    var localMaxDepth := maxDepth;
    if e.rule.maxDepth.Some? {
      localMaxDepth := e.rule.maxDepth.value;
    }
    if below >= maxDepth {
      return Ok(Expansion([], [], drawn));
    }
    if e.depth >= localMaxDepth {
      if e.rule.successor.Some? {
        var p := PickRule(rules, e.rule.successor, stream, drawn);
        if p.Err? {
          return Err(p.error);
        }
        return Ok(Expansion([Entry(p.value.rule, 0, e.matrix)], [], p.value.drawn));
      }
      return Ok(Expansion([], [], drawn));
    }
    var body := e.rule.body;
    var acc := Acc(e.matrix, [], [], drawn);
    var i := 0;
    assert body[i..] == body;
    while i < |body|
      invariant i <= |body|
      invariant Statements(rules, body, e.depth, Acc(e.matrix, [], [], drawn), stream, number)
             == Statements(rules, body[i..], e.depth, acc, stream, number)
    {
      var st := body[i];
      assert body[i..][0] == st && body[i..][1..] == body[i + 1..];
      var x := ParseXform(st.transforms.GetOr(""), number);
      if x.Err? {
        return Err(BadTransform(x.error));
      }
      var a := RunStatement(rules, st, x.value, e.depth, acc, stream);
      if a.Err? {
        return Err(a.error);
      }
      acc := a.value;
      i := i + 1;
    }
    r := Ok(Expansion(acc.pushes, Shared(acc.instances, acc.matrix), acc.drawn));
  }

  /** `for n in xrange(count)`: the repetitions of one statement. */
  method RunStatement(rules: seq<Rule>, st: Statement, x: Matrix, depth: int, acc: Acc, stream: nat -> nat)
    returns (r: Result<Acc, EvalError>)
    ensures r == Repeat(rules, st, x, st.count.GetOr(1), depth, acc, stream)
  {
    var matrix, pushes, instances, drawn := acc.matrix, acc.pushes, acc.instances, acc.drawn;
    var left := st.count.GetOr(1);
    while left > 0
      invariant Repeat(rules, st, x, st.count.GetOr(1), depth, acc, stream)
             == Repeat(rules, st, x, left, depth, Acc(matrix, pushes, instances, drawn), stream)
    {
      matrix := matrix + x;
      if st.tag == "call" {
        var p := PickRule(rules, st.rule, stream, drawn);
        if p.Err? {
          return Err(p.error);
        }
        pushes := pushes + [Entry(p.value.rule, depth + 1, matrix)];
        drawn := p.value.drawn;
      } else if st.tag == "instance" {
        instances := instances + [Shape(st.shape, matrix)];
      } else {
        return Err(Malformed(st.tag));
      }
      left := left - 1;
    }
    r := Ok(Acc(matrix, pushes, instances, drawn));
  }

  // ---------------------------------------------------------------------
  // The evaluation loop

  /** Popping entries until the stack is empty, at most `fuel` of them. */
  function Run(rules: seq<Rule>, maxDepth: int, stack: seq<Entry>, shapes: seq<Shape>, drawn: nat,
               stream: nat -> nat, number: string -> Option<real>, fuel: nat): Result<seq<Shape>, EvalError>
    decreases fuel
  {
    if |stack| == 0 then Ok(shapes)
    else if fuel == 0 then Err(OutOfFuel)
    else
      var below := stack[..|stack| - 1];
      match Expand(rules, maxDepth, stack[|stack| - 1], |below|, drawn, stream, number)
      case Err(e) => Err(e)
      case Ok(x) => Run(rules, maxDepth, below + x.pushes, shapes + x.shapes, x.drawn, stream, number, fuel - 1)
  }

  /** `Evaluate`'s result: pick the entry rule, read `max_depth`, run from the entry at depth 0. */
  function Evaluation(tree: Tree, stream: nat -> nat, number: string -> Option<real>, fuel: nat): Result<seq<Shape>, EvalError>
  {
    match Pick(tree.rules, Some("entry"), stream, 0)
    case Err(e) => Err(e)
    case Ok(p) =>
      if tree.maxDepth.None? then Err(NoMaxDepth)
      else Run(tree.rules, tree.maxDepth.value, [Entry(p.rule, 0, [])], [], p.drawn, stream, number, fuel)
  }

  /** `Evaluate`: the stack loop. */
  method Evaluate(tree: Tree, stream: nat -> nat, number: string -> Option<real>, fuel: nat)
    returns (r: Result<seq<Shape>, EvalError>)
    ensures r == Evaluation(tree, stream, number, fuel)
  {
    var entry := PickRule(tree.rules, Some("entry"), stream, 0);
    if entry.Err? {
      return Err(entry.error);
    }
    var shapes: seq<Shape> := [];
    var stack := [Entry(entry.value.rule, 0, [])];
    if tree.maxDepth.None? {
      return Err(NoMaxDepth);
    }
    var maxDepth := tree.maxDepth.value;
    var drawn := entry.value.drawn;
    var left := fuel;
    while |stack| > 0
      invariant Evaluation(tree, stream, number, fuel) == Run(tree.rules, maxDepth, stack, shapes, drawn, stream, number, left)
      decreases left
    {
      if left == 0 {
        return Err(OutOfFuel);
      }
      var e := stack[|stack| - 1];
      stack := stack[..|stack| - 1];
      var x := ExpandEntry(tree.rules, maxDepth, e, |stack|, drawn, stream, number);
      if x.Err? {
        return Err(x.error);
      }
      stack := stack + x.value.pushes;
      shapes := shapes + x.value.shapes;
      drawn := x.value.drawn;
      left := left - 1;
    }
    r := Ok(shapes);
  }

  // ---------------------------------------------------------------------
  // What one expansion does

  lemma PowerStep(m: Matrix, x: Matrix, i: nat)
    ensures (m + x) + Power(x, i) == m + Power(x, i + 1)
  {
    assert Power(x, i + 1) == x + Power(x, i);
  }

  /**
   * A `call` repeated `k` times multiplies its transform in `k` times, and
   * the repetition that pushes position `j` pushes a rule one level deeper
   * with the matrix as it is after that repetition's multiplication. Each
   * repetition makes one draw.
   */
  lemma {:induction false} RepeatCalls(rules: seq<Rule>, st: Statement, x: Matrix, k: nat, depth: int, acc: Acc, stream: nat -> nat)
    requires st.tag == "call"
    ensures var r := Repeat(rules, st, x, k, depth, acc, stream);
      r.Ok? ==>
        r.value.matrix == acc.matrix + Power(x, k) &&
        r.value.instances == acc.instances && r.value.drawn == acc.drawn + k &&
        |r.value.pushes| == |acc.pushes| + k && r.value.pushes[..|acc.pushes|] == acc.pushes &&
        forall j :: |acc.pushes| <= j < |r.value.pushes| ==>
          r.value.pushes[j].depth == depth + 1 &&
          r.value.pushes[j].matrix == acc.matrix + Power(x, j - |acc.pushes| + 1)
  {
    if k == 0 {
      assert acc.matrix + [] == acc.matrix;
      assert acc.pushes[..|acc.pushes|] == acc.pushes;
    } else {
      var step := Step(rules, st, x, depth, acc, stream);
      if step.Ok? {
        var a := step.value;
        RepeatCalls(rules, st, x, k - 1, depth, a, stream);
        var r := Repeat(rules, st, x, k, depth, acc, stream);
        assert r == Repeat(rules, st, x, k - 1, depth, a, stream);
        if r.Ok? {
          CallStepped(acc, a, r.value, x, k, depth);
        }
      }
    }
  }

  /** Putting one call repetition in front of the rest. */
  lemma CallStepped(acc: Acc, a: Acc, r: Acc, x: Matrix, k: nat, depth: int)
    requires k >= 1
    requires a.matrix == acc.matrix + x && a.instances == acc.instances && a.drawn == acc.drawn + 1
    requires |a.pushes| == |acc.pushes| + 1 && a.pushes[..|acc.pushes|] == acc.pushes
    requires a.pushes[|acc.pushes|].depth == depth + 1 && a.pushes[|acc.pushes|].matrix == a.matrix
    requires r.matrix == a.matrix + Power(x, k - 1) &&
        r.instances == a.instances && r.drawn == a.drawn + (k - 1) &&
        |r.pushes| == |a.pushes| + (k - 1) && r.pushes[..|a.pushes|] == a.pushes &&
        forall j :: |a.pushes| <= j < |r.pushes| ==>
          r.pushes[j].depth == depth + 1 &&
          r.pushes[j].matrix == a.matrix + Power(x, j - |a.pushes| + 1)
    ensures r.matrix == acc.matrix + Power(x, k) &&
        r.instances == acc.instances && r.drawn == acc.drawn + k &&
        |r.pushes| == |acc.pushes| + k && r.pushes[..|acc.pushes|] == acc.pushes &&
        forall j :: |acc.pushes| <= j < |r.pushes| ==>
          r.pushes[j].depth == depth + 1 &&
          r.pushes[j].matrix == acc.matrix + Power(x, j - |acc.pushes| + 1)
  {
    PowerStep(acc.matrix, x, k - 1);
    assert r.pushes[..|acc.pushes|] == a.pushes[..|acc.pushes|];
    forall j | |acc.pushes| <= j < |r.pushes|
      ensures r.pushes[j].depth == depth + 1
      ensures r.pushes[j].matrix == acc.matrix + Power(x, j - |acc.pushes| + 1)
    {
      if j == |acc.pushes| {
        assert r.pushes[j] == a.pushes[j];
        assert Power(x, 0) == [];
        assert a.matrix + [] == a.matrix;
      } else {
        PowerStep(acc.matrix, x, j - |acc.pushes|);
      }
    }
  }

  /**
   * An `instance` repeated `k` times multiplies its transform in `k` times
   * and records `k` shapes, the one at position `j` with the matrix after
   * its own repetition's multiplication. It cannot fail, draws nothing and
   * pushes nothing.
   */
  lemma {:induction false} RepeatInstances(rules: seq<Rule>, st: Statement, x: Matrix, k: nat, depth: int, acc: Acc, stream: nat -> nat)
    requires st.tag == "instance"
    ensures var r := Repeat(rules, st, x, k, depth, acc, stream);
      r.Ok? &&
      r.value.matrix == acc.matrix + Power(x, k) &&
      r.value.pushes == acc.pushes && r.value.drawn == acc.drawn &&
      |r.value.instances| == |acc.instances| + k && r.value.instances[..|acc.instances|] == acc.instances &&
      forall j :: |acc.instances| <= j < |r.value.instances| ==>
        r.value.instances[j] == Shape(st.shape, acc.matrix + Power(x, j - |acc.instances| + 1))
  {
    if k == 0 {
      assert acc.matrix + [] == acc.matrix;
      assert acc.instances[..|acc.instances|] == acc.instances;
    } else {
      var a := Step(rules, st, x, depth, acc, stream).value;
      RepeatInstances(rules, st, x, k - 1, depth, a, stream);
      var r := Repeat(rules, st, x, k, depth, acc, stream);
      assert r == Repeat(rules, st, x, k - 1, depth, a, stream);
      InstanceStepped(acc, a, r.value, x, k, st.shape);
    }
  }

  /** Putting one instance repetition in front of the rest. */
  lemma InstanceStepped(acc: Acc, a: Acc, r: Acc, x: Matrix, k: nat, shape: Option<string>)
    requires k >= 1
    requires a == Acc(acc.matrix + x, acc.pushes, acc.instances + [Shape(shape, acc.matrix + x)], acc.drawn)
    requires r.matrix == a.matrix + Power(x, k - 1) &&
      r.pushes == a.pushes && r.drawn == a.drawn &&
      |r.instances| == |a.instances| + (k - 1) && r.instances[..|a.instances|] == a.instances &&
      forall j :: |a.instances| <= j < |r.instances| ==>
        r.instances[j] == Shape(shape, a.matrix + Power(x, j - |a.instances| + 1))
    ensures r.matrix == acc.matrix + Power(x, k) &&
      r.pushes == acc.pushes && r.drawn == acc.drawn &&
      |r.instances| == |acc.instances| + k && r.instances[..|acc.instances|] == acc.instances &&
      forall j :: |acc.instances| <= j < |r.instances| ==>
        r.instances[j] == Shape(shape, acc.matrix + Power(x, j - |acc.instances| + 1))
  {
    PowerStep(acc.matrix, x, k - 1);
    assert r.instances[..|acc.instances|] == a.instances[..|acc.instances|];
    forall j | |acc.instances| <= j < |r.instances|
      ensures r.instances[j] == Shape(shape, acc.matrix + Power(x, j - |acc.instances| + 1))
    {
      if j == |acc.instances| {
        assert r.instances[j] == a.instances[j];
        assert Power(x, 0) == [];
        assert Power(x, 1) == x + [];
      } else {
        PowerStep(acc.matrix, x, j - |acc.instances|);
      }
    }
  }

  /**
   * As the source leaves them, the `k` shapes of a rule made of one
   * `instance` statement all hold the matrix after the last repetition.
   */
  lemma ExpandSharesMatrix(rules: seq<Rule>, maxDepth: int, e: Entry, below: nat, drawn: nat, stream: nat -> nat,
                           number: string -> Option<real>, x: Matrix)
    requires below < maxDepth && e.depth < e.rule.maxDepth.GetOr(maxDepth)
    requires |e.rule.body| == 1 && e.rule.body[0].tag == "instance" && e.rule.body[0].count.GetOr(1) >= 0
    requires Xform(e.rule.body[0].transforms.GetOr(""), number) == Ok(x)
    ensures var st, k, r := e.rule.body[0], e.rule.body[0].count.GetOr(1), Expand(rules, maxDepth, e, below, drawn, stream, number);
      r.Ok? && r.value.pushes == [] && r.value.drawn == drawn && |r.value.shapes| == k &&
      forall i :: 0 <= i < k ==> r.value.shapes[i] == Shape(st.shape, e.matrix + Power(x, k))
  {
    var st, k := e.rule.body[0], e.rule.body[0].count.GetOr(1);
    var acc := Acc(e.matrix, [], [], drawn);
    RepeatInstances(rules, st, x, k, e.depth, acc, stream);
    var a := Repeat(rules, st, x, k, e.depth, acc, stream).value;
    assert e.rule.body[1..] == [];
    assert Statements(rules, e.rule.body[1..], e.depth, a, stream, number) == Ok(a);
    assert Statements(rules, e.rule.body, e.depth, acc, stream, number) == Ok(a);
  }

  /**
   * With a copy per shape, the shape of the `i`-th repetition holds the
   * matrix after `i + 1` multiplications, as each would be placed where
   * its `instance` statement runs.
   */
  lemma ExpandCopiedPlacesEach(rules: seq<Rule>, maxDepth: int, e: Entry, below: nat, drawn: nat, stream: nat -> nat,
                               number: string -> Option<real>, x: Matrix)
    requires below < maxDepth && e.depth < e.rule.maxDepth.GetOr(maxDepth)
    requires |e.rule.body| == 1 && e.rule.body[0].tag == "instance" && e.rule.body[0].count.GetOr(1) >= 0
    requires Xform(e.rule.body[0].transforms.GetOr(""), number) == Ok(x)
    ensures var st, k, r := e.rule.body[0], e.rule.body[0].count.GetOr(1), ExpandCopied(rules, maxDepth, e, below, drawn, stream, number);
      r.Ok? && r.value.pushes == [] && r.value.drawn == drawn && |r.value.shapes| == k &&
      forall i :: 0 <= i < k ==> r.value.shapes[i] == Shape(st.shape, e.matrix + Power(x, i + 1))
  {
    var st, k := e.rule.body[0], e.rule.body[0].count.GetOr(1);
    var acc := Acc(e.matrix, [], [], drawn);
    RepeatInstances(rules, st, x, k, e.depth, acc, stream);
    var a := Repeat(rules, st, x, k, e.depth, acc, stream).value;
    assert e.rule.body[1..] == [];
    assert Statements(rules, e.rule.body[1..], e.depth, a, stream, number) == Ok(a);
    assert Statements(rules, e.rule.body, e.depth, acc, stream, number) == Ok(a);
  }

  /** The transform text "sa 2" is one uniform scale by 2. */
  lemma ScaleByTwo(number: string -> Option<real>)
    requires number("2") == Some(2.0)
    ensures Xform("sa 2", number) == Ok([Scale(2.0, 2.0, 2.0)])
  {
    var cmds := [Command("sa", ["2"])];
    assert Tokens(cmds) + [] == ["sa", "2"];
    assert Join(["sa", "2"]) == "sa 2";
    assert Values(["2"], number) == [2.0];
    assert Ops(cmds, number) == [Scale(2.0, 2.0, 2.0)];
    ParseWritten(cmds, [], number);
  }

  /** The rule `<instance count="2" transforms="sa 2" shape="box"/>`. */
  predicate TwoBoxes(e: Entry)
  {
    e == Entry(Rule(Some("entry"), None, None, None, [Statement("instance", Some("sa 2"), Some(2), None, Some("box"))]), 0, [])
  }

  /** As written, both boxes of `TwoBoxes` are scaled by 4. */
  lemma SharedMatrixExample(e: Entry, stream: nat -> nat, number: string -> Option<real>)
    requires TwoBoxes(e) && number("2") == Some(2.0)
    ensures var s, r := Scale(2.0, 2.0, 2.0), Expand([e.rule], 1, e, 0, 0, stream, number);
      r.Ok? && |r.value.shapes| == 2 &&
      r.value.shapes[0] == Shape(Some("box"), [s, s]) && r.value.shapes[1] == Shape(Some("box"), [s, s])
  {
    var s := Scale(2.0, 2.0, 2.0);
    ScaleByTwo(number);
    ExpandSharesMatrix([e.rule], 1, e, 0, 0, stream, number, [s]);
    assert Power([s], 2) == [s, s];
  }

  /** With a copy per shape, the first box of `TwoBoxes` is scaled by 2 and the second by 4. */
  lemma CopiedMatrixExample(e: Entry, stream: nat -> nat, number: string -> Option<real>)
    requires TwoBoxes(e) && number("2") == Some(2.0)
    ensures var s, r := Scale(2.0, 2.0, 2.0), ExpandCopied([e.rule], 1, e, 0, 0, stream, number);
      r.Ok? && |r.value.shapes| == 2 &&
      r.value.shapes[0] == Shape(Some("box"), [s]) && r.value.shapes[1] == Shape(Some("box"), [s, s])
  {
    var s := Scale(2.0, 2.0, 2.0);
    ScaleByTwo(number);
    ExpandCopiedPlacesEach([e.rule], 1, e, 0, 0, stream, number, [s]);
    assert Power([s], 1) == [s];
    assert Power([s], 2) == [s, s];
  }

  // ---------------------------------------------------------------------
  // Depths

  /**
   * `after` keeps the entries of `before` and adds entries one level
   * below `depth`, with rules of the document.
   */
  predicate Deeper(before: seq<Entry>, after: seq<Entry>, depth: int, rules: seq<Rule>)
  {
    |before| <= |after| && after[..|before|] == before &&
    forall j :: |before| <= j < |after| ==> after[j].depth == depth + 1 && after[j].rule in rules
  }

  lemma DeeperTransitive(a: seq<Entry>, b: seq<Entry>, c: seq<Entry>, depth: int, rules: seq<Rule>)
    requires Deeper(a, b, depth, rules) && Deeper(b, c, depth, rules)
    ensures Deeper(a, c, depth, rules)
  {
    assert c[..|a|] == c[..|b|][..|a|];
  }

  /**
   * Pushes made by repeating a statement go one level deeper than the
   * entry, with rules of the document, after the earlier pushes.
   */
  lemma {:induction false} RepeatPushes(rules: seq<Rule>, st: Statement, x: Matrix, k: int, depth: int, acc: Acc, stream: nat -> nat)
    ensures var r := Repeat(rules, st, x, k, depth, acc, stream);
      r.Ok? ==> Deeper(acc.pushes, r.value.pushes, depth, rules)
    decreases k
  {
    if k <= 0 {
      assert acc.pushes[..|acc.pushes|] == acc.pushes;
    } else {
      var step := Step(rules, st, x, depth, acc, stream);
      if step.Ok? {
        RepeatPushes(rules, st, x, k - 1, depth, step.value, stream);
        var r := Repeat(rules, st, x, k - 1, depth, step.value, stream);
        StepPushes(rules, st, x, depth, acc, stream);
        if r.Ok? {
          DeeperTransitive(acc.pushes, step.value.pushes, r.value.pushes, depth, rules);
        }
      }
    }
  }

  lemma StepPushes(rules: seq<Rule>, st: Statement, x: Matrix, depth: int, acc: Acc, stream: nat -> nat)
    ensures var r := Step(rules, st, x, depth, acc, stream);
      r.Ok? ==> Deeper(acc.pushes, r.value.pushes, depth, rules)
  {
    var r := Step(rules, st, x, depth, acc, stream);
    if r.Ok? {
      assert r.value.pushes[..|acc.pushes|] == acc.pushes;
    }
  }

  lemma {:induction false} StatementsPushes(rules: seq<Rule>, body: seq<Statement>, depth: int, acc: Acc, stream: nat -> nat,
                                            number: string -> Option<real>)
    ensures var r := Statements(rules, body, depth, acc, stream, number);
      r.Ok? ==> Deeper(acc.pushes, r.value.pushes, depth, rules)
    decreases |body|
  {
    if |body| == 0 {
      assert acc.pushes[..|acc.pushes|] == acc.pushes;
    } else {
      var x := Xform(body[0].transforms.GetOr(""), number);
      if x.Ok? {
        var a := Repeat(rules, body[0], x.value, body[0].count.GetOr(1), depth, acc, stream);
        RepeatPushes(rules, body[0], x.value, body[0].count.GetOr(1), depth, acc, stream);
        if a.Ok? {
          StatementsPushes(rules, body[1..], depth, a.value, stream, number);
          var r := Statements(rules, body[1..], depth, a.value, stream, number);
          if r.Ok? {
            DeeperTransitive(acc.pushes, a.value.pushes, r.value.pushes, depth, rules);
          }
        }
      }
    }
  }

  /** Every entry lies between depth 0 and `bound`, with a rule of the document. */
  predicate DepthsWithin(stack: seq<Entry>, rules: seq<Rule>, bound: int)
  {
    forall i :: 0 <= i < |stack| ==> 0 <= stack[i].depth <= bound && stack[i].rule in rules
  }

  /**
   * The depth limits keep every stack entry within the largest of them:
   * an entry within the bound only ever pushes entries within it.
   */
  lemma ExpandKeepsDepths(rules: seq<Rule>, maxDepth: int, e: Entry, below: nat, drawn: nat, stream: nat -> nat,
                          number: string -> Option<real>, bound: int)
    requires maxDepth <= bound && forall i :: 0 <= i < |rules| ==> rules[i].maxDepth.GetOr(maxDepth) <= bound
    requires e.rule in rules && 0 <= e.depth <= bound
    ensures var r := Expand(rules, maxDepth, e, below, drawn, stream, number);
      r.Ok? ==> DepthsWithin(r.value.pushes, rules, bound)
  {
    if below < maxDepth && e.depth < e.rule.maxDepth.GetOr(maxDepth) {
      StatementsPushes(rules, e.rule.body, e.depth, Acc(e.matrix, [], [], drawn), stream, number);
    }
  }

  // ---------------------------------------------------------------------
  // The loop

  /** Shapes are only ever appended: the result extends the shapes so far. */
  lemma {:induction false} RunExtends(rules: seq<Rule>, maxDepth: int, stack: seq<Entry>, shapes: seq<Shape>, drawn: nat,
                                      stream: nat -> nat, number: string -> Option<real>, fuel: nat)
    ensures var r := Run(rules, maxDepth, stack, shapes, drawn, stream, number, fuel);
      r.Ok? ==> |shapes| <= |r.value| && r.value[..|shapes|] == shapes
    decreases fuel
  {
    if |stack| > 0 && fuel > 0 {
      var below := stack[..|stack| - 1];
      var x := Expand(rules, maxDepth, stack[|stack| - 1], |below|, drawn, stream, number);
      if x.Ok? {
        RunExtends(rules, maxDepth, below + x.value.pushes, shapes + x.value.shapes, x.value.drawn, stream, number, fuel - 1);
        var r := Run(rules, maxDepth, below + x.value.pushes, shapes + x.value.shapes, x.value.drawn, stream, number, fuel - 1);
        if r.Ok? {
          assert r.value[..|shapes|] == (shapes + x.value.shapes)[..|shapes|];
        }
      }
    } else {
      assert shapes[..|shapes|] == shapes;
    }
  }

  /**
   * An entry popped while `max_depth` or more entries remain below it is
   * thrown away: the loop goes on with the rest, unchanged.
   */
  lemma RunDiscards(rules: seq<Rule>, maxDepth: int, stack: seq<Entry>, shapes: seq<Shape>, drawn: nat,
                    stream: nat -> nat, number: string -> Option<real>, fuel: nat)
    requires |stack| > 0 && |stack| - 1 >= maxDepth && fuel > 0
    ensures Run(rules, maxDepth, stack, shapes, drawn, stream, number, fuel)
         == Run(rules, maxDepth, stack[..|stack| - 1], shapes, drawn, stream, number, fuel - 1)
  {
    assert stack[..|stack| - 1] + [] == stack[..|stack| - 1];
    assert shapes + [] == shapes;
  }

  /**
   * An entry at or past its rule's depth limit, with room on the stack,
   * is replaced by its successor at depth 0 with the same matrix, or
   * dropped when the rule names none.
   */
  lemma RunAtLimit(rules: seq<Rule>, maxDepth: int, stack: seq<Entry>, shapes: seq<Shape>, drawn: nat,
                   stream: nat -> nat, number: string -> Option<real>, fuel: nat)
    requires |stack| > 0 && |stack| - 1 < maxDepth && fuel > 0
    requires var e := stack[|stack| - 1]; e.depth >= e.rule.maxDepth.GetOr(maxDepth)
    ensures var e, below := stack[|stack| - 1], stack[..|stack| - 1];
      var r := Run(rules, maxDepth, stack, shapes, drawn, stream, number, fuel);
      (e.rule.successor.None? ==> r == Run(rules, maxDepth, below, shapes, drawn, stream, number, fuel - 1)) &&
      (e.rule.successor.Some? && Pick(rules, e.rule.successor, stream, drawn).Ok? ==>
        (var p := Pick(rules, e.rule.successor, stream, drawn).value;
         p.rule.name == e.rule.successor &&
         r == Run(rules, maxDepth, below + [Entry(p.rule, 0, e.matrix)], shapes, p.drawn, stream, number, fuel - 1)))
  {
    assert stack[..|stack| - 1] + [] == stack[..|stack| - 1];
    assert shapes + [] == shapes;
  }
}

/**
 * The transform strings of the L-system rules: a space-separated list of
 * commands, each followed by its numbers, multiplied left to right into a
 * 4x4 matrix starting from the identity.
 *
 * A matrix is kept as the sequence of its factors: multiplying by another
 * matrix appends that matrix's factors, the identity is the empty
 * sequence. The floats are `real`; the text-to-float conversion is a
 * parameter `number`, `None` where the conversion fails.
 */
module LSystemXform {
  import opened Wrappers

  /** The elementary matrices the commands make. Angles are in radians. */
  datatype Op =
    | Translate(x: real, y: real, z: real)
    | RotateX(theta: real)
    | RotateY(theta: real)
    | RotateZ(theta: real)
    | Scale(x: real, y: real, z: real)

  /** A matrix as the product of its factors, left to right. */
  type Matrix = seq<Op>

  /** `radians`, with the source's 3.141 for pi. */
  function Radians(d: real): real
  {
    d * 3.141 / 180.0
  }

  datatype XformError =
    | UnknownCommand(command: string)   // the source quits
    | MissingNumber                     // reading past the last token
    | BadNumber(token: string)          // a token that is not a float

  // ---------------------------------------------------------------------
  // Tokens

  /** `s.split(' ')`: the pieces between single spaces, empty ones included. */
  function Split(s: string): (r: seq<string>)
    ensures |r| >= 1
  {
    if |s| == 0 then [""]
    else
      var rest := Split(s[1..]);
      if s[0] == ' ' then [""] + rest else [[s[0]] + rest[0]] + rest[1..]
  }

  /** `' '.join(tokens)`. */
  function Join(tokens: seq<string>): string
    requires |tokens| >= 1
  {
    if |tokens| == 1 then tokens[0] else tokens[0] + " " + Join(tokens[1..])
  }

  /** Splitting loses nothing: joining the pieces gives the string back. */
  lemma {:induction false} JoinSplit(s: string)
    ensures Join(Split(s)) == s
  {
    if |s| > 0 {
      var rest := Split(s[1..]);
      JoinSplit(s[1..]);
      if s[0] != ' ' {
        var r := Split(s);
        assert r[0] == [s[0]] + rest[0] && r[1..] == rest[1..];
        if |rest| > 1 {
          assert rest == [rest[0]] + rest[1..];
          assert Join(rest) == rest[0] + " " + Join(rest[1..]);
        }
      }
    }
  }

  /** Pieces without spaces come back from splitting their join. */
  lemma {:induction false} SplitJoin(tokens: seq<string>)
    requires |tokens| >= 1
    requires forall i :: 0 <= i < |tokens| ==> ' ' !in tokens[i]
    ensures Split(Join(tokens)) == tokens
  {
    if |tokens| == 1 {
      SplitWord(tokens[0]);
    } else {
      SplitJoin(tokens[1..]);
      SplitThenSpace(tokens[0], Join(tokens[1..]));
      assert [tokens[0]] + tokens[1..] == tokens;
    }
  }

  /** A piece without spaces is one token. */
  lemma {:induction false} SplitWord(w: string)
    requires ' ' !in w
    ensures Split(w) == [w]
  {
    if |w| > 0 {
      SplitWord(w[1..]);
      assert [w[0]] + w[1..] == w;
    }
  }

  /** A word, a space, then anything: the word is the first token. */
  lemma {:induction false} SplitThenSpace(w: string, rest: string)
    requires ' ' !in w
    ensures Split(w + " " + rest) == [w] + Split(rest)
  {
    if |w| == 0 {
      assert w + " " + rest == " " + rest;
      assert (" " + rest)[1..] == rest;
    } else {
      SplitThenSpace(w[1..], rest);
      var s := w + " " + rest;
      assert s[1..] == w[1..] + " " + rest;
      assert [w[0]] + w[1..] == w;
    }
  }

  // ---------------------------------------------------------------------
  // Commands

  /** The commands the parser knows. */
  predicate Known(command: string)
  {
    command in {"tx", "ty", "tz", "t", "rx", "ry", "rz", "sx", "sy", "sz", "sa", "s"}
  }

  /** How many numbers follow a command: three for `t` and `s`, one for the others. */
  function Arity(command: string): (k: nat)
    ensures Known(command) ==> 1 <= k <= 3
  {
    if command == "t" || command == "s" then 3 else if Known(command) then 1 else 0
  }

  /** The matrix a known command makes from its numbers. */
  function MakeOp(command: string, a: seq<real>): Op
    requires Known(command) && |a| == Arity(command)
  {
    match command
    case "tx" => Translate(a[0], 0.0, 0.0)
    case "ty" => Translate(0.0, a[0], 0.0)
    case "tz" => Translate(0.0, 0.0, a[0])
    case "t" => Translate(a[0], a[1], a[2])
    case "rx" => RotateX(Radians(a[0]))
    case "ry" => RotateY(Radians(a[0]))
    case "rz" => RotateZ(Radians(a[0]))
    case "sx" => Scale(a[0], 1.0, 1.0)
    case "sy" => Scale(1.0, a[0], 1.0)
    case "sz" => Scale(1.0, 1.0, a[0])
    case "sa" => Scale(a[0], a[0], a[0])
    case _ => Scale(a[0], a[1], a[2])
  }

  /** The first `k` tokens read as numbers, in order. */
  function Numbers(tokens: seq<string>, k: nat, number: string -> Option<real>): (r: Result<seq<real>, XformError>)
    ensures r.Ok? ==> |r.value| == k <= |tokens|
  {
    if k == 0 then Ok([])
    else if |tokens| == 0 then Err(MissingNumber)
    else match number(tokens[0])
      case None => Err(BadNumber(tokens[0]))
      case Some(x) =>
        match Numbers(tokens[1..], k - 1, number)
        case Err(e) => Err(e)
        case Ok(xs) => Ok([x] + xs)
  }

  /** A result with the factors `m` multiplied in front. */
  function Prepend(m: Matrix, r: Result<Matrix, XformError>): Result<Matrix, XformError>
  {
    match r
    case Ok(rest) => Ok(m + rest)
    case Err(e) => Err(e)
  }

  /**
   * The matrix of a token list. Parsing goes on only while two or more
   * tokens remain, so a lone last token is never read.
   */
  function Parse(tokens: seq<string>, number: string -> Option<real>): Result<Matrix, XformError>
    decreases |tokens|
  {
    if |tokens| <= 1 then Ok([])
    else
      var command := tokens[0];
      if !Known(command) then Err(UnknownCommand(command))
      else match Numbers(tokens[1..], Arity(command), number)
        case Err(e) => Err(e)
        case Ok(a) => Prepend([MakeOp(command, a)], Parse(tokens[1 + Arity(command)..], number))
  }

  /** `parse_xform`'s result for a transform string. */
  function Xform(s: string, number: string -> Option<real>): Result<Matrix, XformError>
  {
    Parse(Split(s), number)
  }

  // ---------------------------------------------------------------------
  // The parsing loop

  /** `parse_xform`: the command loop, reading each command's numbers after it. */
  method ParseXform(s: string, number: string -> Option<real>) returns (r: Result<Matrix, XformError>)
    ensures r == Xform(s, number)
  {
    var tokens := Split(s);
    var matrix: Matrix := [];
    var t := 0;
    assert tokens[t..] == tokens;
    PrependNothing(Parse(tokens, number));
    while t < |tokens| - 1
      invariant 0 <= t <= |tokens|
      invariant Parse(tokens, number) == Prepend(matrix, Parse(tokens[t..], number))
    {
      ghost var rest := tokens[t..];
      var command := tokens[t];
      t := t + 1;
      if !Known(command) {
        return Err(UnknownCommand(command));
      }
      assert rest[1..] == tokens[t..];
      var a := ReadNumbers(tokens, t, Arity(command), number);
      if a.Err? {
        return Err(a.error);
      }
      t := t + Arity(command);
      assert tokens[t..] == rest[1 + Arity(command)..];
      PrependAssociates(matrix, [MakeOp(command, a.value)], Parse(tokens[t..], number));
      matrix := matrix + [MakeOp(command, a.value)];
    }
    r := Ok(matrix);
    assert matrix + [] == matrix;
  }

  /** The `k` numbers after position `t`, read one token at a time. */
  method ReadNumbers(tokens: seq<string>, t: nat, k: nat, number: string -> Option<real>)
    returns (r: Result<seq<real>, XformError>)
    requires t <= |tokens|
    ensures r == Numbers(tokens[t..], k, number)
  {
    var a: seq<real> := [];
    var j, left := t, k;
    PrependNumbersNothing(Numbers(tokens[t..], k, number));
    while left > 0
      invariant t <= j <= |tokens|
      invariant Numbers(tokens[t..], k, number) == PrependNumbers(a, Numbers(tokens[j..], left, number))
    {
      if j >= |tokens| {
        ReadFails(tokens, t, k, a, j, left, number);
        return Err(MissingNumber);
      }
      var x := number(tokens[j]);
      if x.None? {
        ReadFails(tokens, t, k, a, j, left, number);
        return Err(BadNumber(tokens[j]));
      }
      ReadStep(tokens, t, k, a, j, left, number);
      a := a + [x.value];
      j, left := j + 1, left - 1;
    }
    r := Ok(a);
    assert a + [] == a;
  }

  /** Reading one number off the front. */
  /** One more number read: it joins those read before. */
  lemma ReadStep(tokens: seq<string>, t: nat, k: nat, a: seq<real>, j: nat, left: nat, number: string -> Option<real>)
    requires t <= j < |tokens| && left > 0 && number(tokens[j]).Some?
    requires Numbers(tokens[t..], k, number) == PrependNumbers(a, Numbers(tokens[j..], left, number))
    ensures Numbers(tokens[t..], k, number)
         == PrependNumbers(a + [number(tokens[j]).value], Numbers(tokens[j + 1..], left - 1, number))
  {
    NumbersStep(tokens, j, left, number);
    PrependNumbersAssociates(a, [number(tokens[j]).value], Numbers(tokens[j + 1..], left - 1, number));
  }

  /** A number still wanted that is missing or does not read fails the whole read. */
  lemma ReadFails(tokens: seq<string>, t: nat, k: nat, a: seq<real>, j: nat, left: nat, number: string -> Option<real>)
    requires t <= j <= |tokens| && left > 0 && (j == |tokens| || number(tokens[j]).None?)
    requires Numbers(tokens[t..], k, number) == PrependNumbers(a, Numbers(tokens[j..], left, number))
    ensures Numbers(tokens[t..], k, number) == Err(if j == |tokens| then MissingNumber else BadNumber(tokens[j]))
  {
  }

  /** A successful read holds, in order, the numbers the first `k` tokens read as. */
  lemma {:induction false} NumbersReadEach(tokens: seq<string>, k: nat, number: string -> Option<real>)
    ensures var r := Numbers(tokens, k, number);
      r.Ok? ==> forall i :: 0 <= i < k ==> number(tokens[i]) == Some(r.value[i])
  {
    if k > 0 && |tokens| > 0 && number(tokens[0]).Some? {
      NumbersReadEach(tokens[1..], k - 1, number);
    }
  }

  lemma NumbersStep(tokens: seq<string>, j: nat, left: nat, number: string -> Option<real>)
    requires j < |tokens| && left > 0 && number(tokens[j]).Some?
    ensures Numbers(tokens[j..], left, number)
         == PrependNumbers([number(tokens[j]).value], Numbers(tokens[j + 1..], left - 1, number))
  {
    assert tokens[j..][1..] == tokens[j + 1..];
  }

  /** Numbers already read, in front of the rest. */
  function PrependNumbers(a: seq<real>, r: Result<seq<real>, XformError>): Result<seq<real>, XformError>
  {
    match r
    case Ok(xs) => Ok(a + xs)
    case Err(e) => Err(e)
  }

  lemma PrependNumbersNothing(r: Result<seq<real>, XformError>)
    ensures PrependNumbers([], r) == r
  {
    if r.Ok? {
      assert [] + r.value == r.value;
    }
  }

  lemma PrependNothing(r: Result<Matrix, XformError>)
    ensures Prepend([], r) == r
  {
    if r.Ok? {
      assert [] + r.value == r.value;
    }
  }

  lemma PrependNumbersAssociates(a: seq<real>, b: seq<real>, r: Result<seq<real>, XformError>)
    ensures PrependNumbers(a, PrependNumbers(b, r)) == PrependNumbers(a + b, r)
  {
    if r.Ok? {
      assert a + (b + r.value) == (a + b) + r.value;
    }
  }

  lemma PrependAssociates(m: Matrix, n: Matrix, r: Result<Matrix, XformError>)
    ensures Prepend(m, Prepend(n, r)) == Prepend(m + n, r)
  {
    if r.Ok? {
      assert m + (n + r.value) == (m + n) + r.value;
    }
  }

  // ---------------------------------------------------------------------
  // The token structure

  /** A command with the tokens of its numbers. */
  datatype Command = Command(name: string, args: seq<string>)

  /** The commands written out as tokens, each name followed by its numbers. */
  function Tokens(cmds: seq<Command>): seq<string>
  {
    if |cmds| == 0 then [] else [cmds[0].name] + cmds[0].args + Tokens(cmds[1..])
  }

  /** Known commands, each with as many numbers as it takes, all of them floats. */
  predicate WellFormed(cmds: seq<Command>, number: string -> Option<real>)
  {
    forall i :: 0 <= i < |cmds| ==>
      Known(cmds[i].name) && |cmds[i].args| == Arity(cmds[i].name) &&
      forall j :: 0 <= j < |cmds[i].args| ==> number(cmds[i].args[j]).Some?
  }

  /** The matrices of the commands, in order. */
  function Ops(cmds: seq<Command>, number: string -> Option<real>): (m: Matrix)
    requires WellFormed(cmds, number)
    ensures |m| == |cmds|
  {
    if |cmds| == 0 then []
    else
      var c := cmds[0];
      [MakeOp(c.name, Values(c.args, number))] + Ops(cmds[1..], number)
  }

  /**
   * Well-formed commands are read one after the other, each taking its
   * name and exactly its numbers, and parsing continues with whatever
   * follows them.
   */
  lemma {:induction false} ParseCommands(cmds: seq<Command>, rest: seq<string>, number: string -> Option<real>)
    requires WellFormed(cmds, number)
    ensures Parse(Tokens(cmds) + rest, number) == Prepend(Ops(cmds, number), Parse(rest, number))
  {
    if |cmds| == 0 {
      assert Tokens(cmds) + rest == rest;
      PrependNothing(Parse(rest, number));
    } else {
      var op := MakeOp(cmds[0].name, Values(cmds[0].args, number));
      ParseFirst(cmds, rest, number);
      ParseCommands(cmds[1..], rest, number);
      PrependAssociates([op], Ops(cmds[1..], number), Parse(rest, number));
    }
  }

  /** The first command's operation comes first, followed by what the others parse to. */
  lemma ParseFirst(cmds: seq<Command>, rest: seq<string>, number: string -> Option<real>)
    requires WellFormed(cmds, number) && |cmds| > 0
    ensures WellFormed(cmds[1..], number)
    ensures Ops(cmds, number) == [MakeOp(cmds[0].name, Values(cmds[0].args, number))] + Ops(cmds[1..], number)
    ensures Parse(Tokens(cmds) + rest, number)
         == Prepend([MakeOp(cmds[0].name, Values(cmds[0].args, number))], Parse(Tokens(cmds[1..]) + rest, number))
  {
    var c := cmds[0];
    var a := Values(c.args, number);
    var tokens := Tokens(cmds) + rest;
    var after := Tokens(cmds[1..]) + rest;
    assert tokens == [c.name] + (c.args + after);
    assert tokens[1..] == c.args + after;
    NumbersOf(c.args, after, number);
    assert tokens[1 + Arity(c.name)..] == after;
    ParseStep(tokens, a, number);
  }

  /** One command of known name whose numbers read: its operation comes first. */
  lemma ParseStep(tokens: seq<string>, a: seq<real>, number: string -> Option<real>)
    requires |tokens| >= 1 && Known(tokens[0]) && Numbers(tokens[1..], Arity(tokens[0]), number) == Ok(a)
    ensures Parse(tokens, number) == Prepend([MakeOp(tokens[0], a)], Parse(tokens[1 + Arity(tokens[0])..], number))
  {
  }

  /** Number tokens followed by anything read as their numbers. */
  lemma {:induction false} NumbersOf(args: seq<string>, after: seq<string>, number: string -> Option<real>)
    requires forall j :: 0 <= j < |args| ==> number(args[j]).Some?
    ensures Numbers(args + after, |args|, number) == Ok(Values(args, number))
  {
    if |args| > 0 {
      assert (args + after)[1..] == args[1..] + after;
      NumbersOf(args[1..], after, number);
    }
  }

  /** The floats of number tokens that all convert. */
  function Values(args: seq<string>, number: string -> Option<real>): (xs: seq<real>)
    requires forall j :: 0 <= j < |args| ==> number(args[j]).Some?
    ensures |xs| == |args|
  {
    if |args| == 0 then [] else [number(args[0]).value] + Values(args[1..], number)
  }

  /**
   * Written out with single spaces, well-formed commands parse to their
   * matrices; a lone token after them is ignored, and an empty string is
   * the identity.
   */
  lemma ParseWritten(cmds: seq<Command>, tail: seq<string>, number: string -> Option<real>)
    requires WellFormed(cmds, number) && |tail| <= 1
    requires forall i :: 0 <= i < |cmds| ==> ' ' !in cmds[i].name && forall j :: 0 <= j < |cmds[i].args| ==> ' ' !in cmds[i].args[j]
    requires forall i :: 0 <= i < |tail| ==> ' ' !in tail[i]
    requires |Tokens(cmds) + tail| >= 1
    ensures Xform(Join(Tokens(cmds) + tail), number) == Ok(Ops(cmds, number))
  {
    TokensWithoutSpaces(cmds);
    var tokens := Tokens(cmds) + tail;
    assert forall i :: 0 <= i < |tokens| ==> ' ' !in tokens[i] by {
      forall i | 0 <= i < |tokens|
        ensures ' ' !in tokens[i]
      {
        if i >= |Tokens(cmds)| {
          assert tokens[i] == tail[i - |Tokens(cmds)|];
        }
      }
    }
    SplitJoin(tokens);
    ParseCommands(cmds, tail, number);
    assert Ops(cmds, number) + [] == Ops(cmds, number);
  }

  lemma {:induction false} TokensWithoutSpaces(cmds: seq<Command>)
    requires forall i :: 0 <= i < |cmds| ==> ' ' !in cmds[i].name && forall j :: 0 <= j < |cmds[i].args| ==> ' ' !in cmds[i].args[j]
    ensures forall i :: 0 <= i < |Tokens(cmds)| ==> ' ' !in Tokens(cmds)[i]
  {
    if |cmds| > 0 {
      TokensWithoutSpaces(cmds[1..]);
      var c := cmds[0];
      var t := Tokens(cmds);
      forall i | 0 <= i < |t|
        ensures ' ' !in t[i]
      {
        if i == 0 {
        } else if i <= |c.args| {
          assert t[i] == c.args[i - 1];
        } else {
          assert t[i] == Tokens(cmds[1..])[i - 1 - |c.args|];
        }
      }
    }
  }

  /** A command the parser does not know aborts the parse, whatever came before it. */
  lemma UnknownAborts(cmds: seq<Command>, command: string, rest: seq<string>, number: string -> Option<real>)
    requires WellFormed(cmds, number) && !Known(command) && |rest| >= 1
    ensures Parse(Tokens(cmds) + ([command] + rest), number) == Err(UnknownCommand(command))
  {
    ParseCommands(cmds, [command] + rest, number);
  }
}

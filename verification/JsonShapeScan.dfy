/** The two token-stream checks as they are written: a loop over an explicit stack,
    and a recursive closure over a decoder with a position. */
module JsonShapeScan {
  import opened Prelude
  import opened JsonShape

  /** invalidJSONShape. A closing token without an open container, which the decoder
      never delivers, is rejected like an error. */
  method InvalidShape(tokens: seq<Token>) returns (invalid: bool)
    ensures invalid == !ShapeAccepts(tokens)
  {
    hide Step, Run;
    var depth, roots := 0, 0;
    var stack: seq<Option<set<string>>> := [];
    var expectKey: seq<bool> := [];
    for i := 0 to |tokens|
      invariant InStep(Machine(depth, roots, stack, expectKey))
      invariant Run(Start(), tokens) == Run(Machine(depth, roots, stack, expectKey), tokens[i..])
    {
      var tok := tokens[i];
      ghost var m := Machine(depth, roots, stack, expectKey);
      assert tokens[i..] == [tok] + tokens[i + 1..];
      RunStep(m, tok, tokens[i + 1..]);
      StepIs(m, tok);
      match tok {
        case Broken(_) => return true;
        case OpenObject =>
          depth := depth + 1;
          if depth > 8 { return true; }
          stack, expectKey := stack + [Some({})], expectKey + [true];
        case OpenArray =>
          depth := depth + 1;
          if depth > 8 { return true; }
          stack, expectKey := stack + [None], expectKey + [false];
        case CloseObject =>
          if depth == 0 { return true; }
          depth := depth - 1;
          stack, expectKey := stack[..|stack| - 1], expectKey[..|expectKey| - 1];
        case CloseArray =>
          if depth == 0 { return true; }
          depth := depth - 1;
          stack, expectKey := stack[..|stack| - 1], expectKey[..|expectKey| - 1];
        case Text(text) =>
          if |stack| > 0 && stack[|stack| - 1].Some? && expectKey[|expectKey| - 1] {
            if text in stack[|stack| - 1].value { return true; }
            stack := stack[..|stack| - 1] + [Some(stack[|stack| - 1].value + {text})];
            expectKey := expectKey[..|expectKey| - 1] + [false];
          } else if |expectKey| > 0 && stack[|stack| - 1].Some? {
            expectKey := expectKey[..|expectKey| - 1] + [true];
          }
        case Other =>
          if |expectKey| > 0 && stack[|stack| - 1].Some? {
            expectKey := expectKey[..|expectKey| - 1] + [true];
          }
      }
      if (tok == OpenObject || tok == OpenArray) && depth == 1 { roots := roots + 1; }
      if (tok == CloseObject || tok == CloseArray) && |expectKey| > 0 && stack[|stack| - 1].Some? {
        expectKey := expectKey[..|expectKey| - 1] + [true];
      }
      assert Step(m, tok) == Some(Machine(depth, roots, stack, expectKey));
    }
    RunNothing(Machine(depth, roots, stack, expectKey));
    return depth != 0 || roots != 1;
  }

  /** The step function, unfolded. */
  lemma StepIs(m: Machine, t: Token)
    requires InStep(m)
    ensures Step(m, t) == match t
              case OpenObject => Opened(m, Some({}))
              case OpenArray => Opened(m, None)
              case CloseObject => if m.depth == 0 then None
                else Some(ValueDone(Machine(m.depth - 1, m.roots, Drop(m.stack), Drop(m.expectKey))))
              case CloseArray => if m.depth == 0 then None
                else Some(ValueDone(Machine(m.depth - 1, m.roots, Drop(m.stack), Drop(m.expectKey))))
              case Other => Some(ValueDone(m))
              case Broken(_) => None
              case Text(text) =>
                if InObject(m) && Top(m.expectKey) then
                  if text in Top(m.stack).value then None
                  else
                    var keys := Top(m.stack).value + {text};
                    Some(m.(stack := Drop(m.stack) + [Some(keys)], expectKey := Drop(m.expectKey) + [false]))
                else Some(ValueDone(m))
  {
  }

  /** json.Decoder reduced to its token stream. */
  class Decoder {
    const tokens: seq<Token>
    var pos: nat

    constructor (tokens: seq<Token>)
      ensures this.tokens == tokens && pos == 0
    {
      this.tokens := tokens;
      pos := 0;
    }

    ghost predicate Valid() reads this {
      pos <= |tokens|
    }

    ghost function Rest(): seq<Token>
      requires Valid()
      reads this
    {
      tokens[pos..]
    }

    method Next() returns (token: Option<Token>)
      requires Valid()
      modifies this
      ensures Valid()
      ensures old(Rest()) == [] ==> token == None && Rest() == []
      ensures old(Rest()) != [] ==> token == Some(old(Rest())[0]) && Rest() == old(Rest())[1..] && pos == old(pos) + 1
    {
      if pos == |tokens| { return None; }
      token := Some(tokens[pos]);
      pos := pos + 1;
    }

    method HasMore() returns (more: bool)
      requires Valid()
      ensures more == More(Rest())
    {
      more := pos < |tokens| && tokens[pos] != CloseObject && tokens[pos] != CloseArray && tokens[pos] != Broken(true);
    }

    /** The recursive closure of ValidateNoDuplicateJSON. */
    method Check(depth: nat, maxDepth: nat) returns (ok: bool)
      requires Valid()
      modifies this
      ensures Valid() && ok == CheckValue(old(Rest()), depth, maxDepth).Some?
      ensures ok ==> Some(Rest()) == CheckValue(old(Rest()), depth, maxDepth) && pos > old(pos)
      decreases |tokens| - pos, 0
    {
      hide CheckFields, CheckItems;
      var token := Next();
      if token.None? { return false; }
      match token.value {
        case Broken(_) => return false;
        case Text(_) => return true;
        case Other => return true;
        case OpenObject =>
          if depth >= maxDepth { return false; }
          ok := CheckObject(depth, maxDepth);
        case OpenArray =>
          if depth >= maxDepth { return false; }
          ok := CheckArray(depth, maxDepth);
        case CloseObject => return false;
        case CloseArray => return false;
      }
    }

    method CheckObject(depth: nat, maxDepth: nat) returns (ok: bool)
      requires Valid()
      modifies this
      ensures Valid() && ok == CheckFields(old(Rest()), {}, depth + 1, maxDepth).Some?
      ensures ok ==> Some(Rest()) == CheckFields(old(Rest()), {}, depth + 1, maxDepth) && pos > old(pos)
      decreases |tokens| - pos, 1
    {
      hide CheckValue;
      ghost var start := Rest();
      var seen: set<string> := {};
      var more := HasMore();
      while more
        invariant Valid() && pos >= old(pos) && more == More(Rest())
        invariant CheckFields(start, {}, depth + 1, maxDepth) == CheckFields(Rest(), seen, depth + 1, maxDepth)
        decreases |tokens| - pos
      {
        var token := Next();
        if !token.value.Text? { return false; }
        var key := token.value.text;
        if key in seen { return false; }
        ok := Check(depth + 1, maxDepth);
        if !ok { return; }
        seen := seen + {key};
        more := HasMore();
      }
      var end := Next();
      ok := end == Some(CloseObject);
    }

    method CheckArray(depth: nat, maxDepth: nat) returns (ok: bool)
      requires Valid()
      modifies this
      ensures Valid() && ok == CheckItems(old(Rest()), depth + 1, maxDepth).Some?
      ensures ok ==> Some(Rest()) == CheckItems(old(Rest()), depth + 1, maxDepth) && pos > old(pos)
      decreases |tokens| - pos, 1
    {
      hide CheckValue;
      ghost var start := Rest();
      var more := HasMore();
      while more
        invariant Valid() && pos >= old(pos) && more == More(Rest())
        invariant CheckItems(start, depth + 1, maxDepth) == CheckItems(Rest(), depth + 1, maxDepth)
        decreases |tokens| - pos
      {
        ok := Check(depth + 1, maxDepth);
        if !ok { return; }
        more := HasMore();
      }
      var end := Next();
      ok := end == Some(CloseArray);
    }
  }

  /** ValidateNoDuplicateJSON. */
  method ValidateNoDuplicates(tokens: seq<Token>, maxDepth: nat) returns (ok: bool)
    ensures ok == Validates(tokens, maxDepth)
  {
    hide CheckValue;
    if maxDepth < 1 { return false; }
    var decoder := new Decoder(tokens);
    assert tokens[0..] == tokens;
    ok := decoder.Check(0, maxDepth);
    if !ok { return; }
    var trailing := decoder.Next();
    ok := trailing == None;
  }
}

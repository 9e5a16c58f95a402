/** The check that no JSON object, at any depth, repeats a key and that nothing
    follows the value, as a recursive walk over a decoder's tokens. */
module JsonKeys {
  import opened Wrappers

  datatype Token =
    | Scalar(literal: string) | Text(text: string)
    | OpenObject | CloseObject | OpenArray | CloseArray

  // ------------------------------------------------- values and their tokens

  datatype Json =
    | Plain(literal: string) | Str(text: string)
    | Object(members: Members) | Array(items: Items)
  datatype Members = NoMembers | Member(key: string, value: Json, rest: Members)
  datatype Items = NoItems | Item(value: Json, rest: Items)

  function Print(v: Json): seq<Token> {
    match v
    case Plain(literal) => [Scalar(literal)]
    case Str(text) => [Text(text)]
    case Object(members) => [OpenObject] + PrintMembers(members)
    case Array(items) => [OpenArray] + PrintItems(items)
  }

  function PrintMembers(m: Members): seq<Token> {
    match m
    case NoMembers => [CloseObject]
    case Member(key, value, rest) => [Text(key)] + (Print(value) + PrintMembers(rest))
  }

  function PrintItems(s: Items): seq<Token> {
    match s
    case NoItems => [CloseArray]
    case Item(value, rest) => Print(value) + PrintItems(rest)
  }

  /** No object inside the value repeats a key. */
  predicate UniqueKeys(v: Json) {
    match v
    case Plain(_) => true
    case Str(_) => true
    case Object(members) => UniqueMembers(members)
    case Array(items) => UniqueItems(items)
  }

  function Keys(m: Members): set<string> {
    if m.NoMembers? then {} else {m.key} + Keys(m.rest)
  }

  predicate UniqueMembers(m: Members) {
    m.NoMembers? || (m.key !in Keys(m.rest) && UniqueKeys(m.value) && UniqueMembers(m.rest))
  }

  predicate UniqueItems(s: Items) {
    s.NoItems? || (UniqueKeys(s.value) && UniqueItems(s.rest))
  }

  // ------------------------------------------------------------- the walk

  /** What is left after one value, or nothing if the walk fails. */
  function Walk(tokens: seq<Token>): (rest: Option<seq<Token>>)
    ensures rest.Some? ==> |rest.value| < |tokens|
    decreases |tokens|, 0
  {
    if tokens == [] then None
    else match tokens[0]
         case Scalar(_) => Some(tokens[1..])
         case Text(_) => Some(tokens[1..])
         case OpenObject => WalkMembers(tokens[1..], {})
         case OpenArray => WalkItems(tokens[1..])
         case _ => None
  }

  function WalkMembers(tokens: seq<Token>, seen: set<string>): (rest: Option<seq<Token>>)
    ensures rest.Some? ==> |rest.value| < |tokens|
    decreases |tokens|, 1
  {
    if tokens == [] then None
    else match tokens[0]
         case CloseObject => Some(tokens[1..])
         case Text(key) =>
           if key in seen then None
           else
             var after := Walk(tokens[1..]);
             if after.None? then None else WalkMembers(after.value, seen + {key})
         case _ => None
  }

  function WalkItems(tokens: seq<Token>): (rest: Option<seq<Token>>)
    ensures rest.Some? ==> |rest.value| < |tokens|
    decreases |tokens|, 1
  {
    if tokens == [] then None
    else if tokens[0] == CloseArray then Some(tokens[1..])
    else
      var after := Walk(tokens);
      if after.None? then None else WalkItems(after.value)
  }

  /** The decoder as the walk uses it, with its position in the tokens. */
  class Decoder {
    const tokens: seq<Token>
    var position: nat

    constructor (tokens: seq<Token>)
      ensures this.tokens == tokens && position == 0
    {
      this.tokens, position := tokens, 0;
    }

    ghost predicate Valid()
      reads this
    {
      position <= |tokens|
    }

    function Rest(): seq<Token>
      reads this
      requires Valid()
    {
      tokens[position..]
    }

    predicate More()
      reads this
      requires Valid()
    {
      position < |tokens| && tokens[position] != CloseObject && tokens[position] != CloseArray
    }

    method WalkValue() returns (ok: bool)
      requires Valid()
      modifies this
      ensures Valid() && position >= old(position)
      ensures ok <==> Walk(old(Rest())).Some?
      ensures ok ==> Rest() == Walk(old(Rest())).value
      decreases |tokens| - position, 0
    {
      if position == |tokens| {
        return false;
      }
      var token := tokens[position];
      position := position + 1;
      match token {
        case Scalar(_) => return true;
        case Text(_) => return true;
        case OpenObject => ok := WalkObject();
        case OpenArray => ok := WalkArray();
        case _ => return false;
      }
    }

    method WalkObject() returns (ok: bool)
      requires Valid()
      modifies this
      ensures Valid() && position >= old(position)
      ensures ok <==> WalkMembers(old(Rest()), {}).Some?
      ensures ok ==> Rest() == WalkMembers(old(Rest()), {}).value
      decreases |tokens| - position, 1
    {
      var seen: set<string> := {};
      while More()
        invariant Valid() && position >= old(position)
        invariant WalkMembers(old(Rest()), {}) == WalkMembers(Rest(), seen)
        decreases |tokens| - position
      {
        if !tokens[position].Text? || tokens[position].text in seen {
          return false;
        }
        seen := seen + {tokens[position].text};
        position := position + 1;
        var inner := WalkValue();
        if !inner {
          return false;
        }
      }
      if position == |tokens| || tokens[position] != CloseObject {
        return false;
      }
      position := position + 1;
      return true;
    }

    method WalkArray() returns (ok: bool)
      requires Valid()
      modifies this
      ensures Valid() && position >= old(position)
      ensures ok <==> WalkItems(old(Rest())).Some?
      ensures ok ==> Rest() == WalkItems(old(Rest())).value
      decreases |tokens| - position, 1
    {
      while More()
        invariant Valid() && position >= old(position)
        invariant WalkItems(old(Rest())) == WalkItems(Rest())
        decreases |tokens| - position
      {
        var inner := WalkValue();
        if !inner {
          return false;
        }
      }
      if position == |tokens| || tokens[position] != CloseArray {
        return false;
      }
      position := position + 1;
      return true;
    }
  }

  method RejectDuplicateKeys(tokens: seq<Token>) returns (accepted: bool)
    ensures accepted <==> exists v :: UniqueKeys(v) && tokens == Print(v)
  {
    var decoder := new Decoder(tokens);
    var ok := decoder.WalkValue();
    assert tokens[0..] == tokens;
    AcceptedExactly(tokens);
    return ok && decoder.position == |tokens|;
  }

  // -------------------------------------------------------------- results

  /** Printed values are walked exactly to their end, or rejected for a
      repeated key. */
  lemma {:induction false} WalkConsumesPrinted(v: Json, rest: seq<Token>)
    ensures Walk(Print(v) + rest) == if UniqueKeys(v) then Some(rest) else None
    decreases v
  {
    var all := Print(v) + rest;
    match v {
      case Plain(_) => assert all[1..] == rest;
      case Str(_) => assert all[1..] == rest;
      case Object(members) =>
        assert all[1..] == PrintMembers(members) + rest;
        WalkConsumesMembers(members, {}, rest);
      case Array(items) =>
        assert all[1..] == PrintItems(items) + rest;
        WalkConsumesItems(items, rest);
    }
  }

  lemma {:induction false} WalkConsumesMembers(m: Members, seen: set<string>, rest: seq<Token>)
    ensures WalkMembers(PrintMembers(m) + rest, seen)
         == if UniqueMembers(m) && Keys(m) !! seen then Some(rest) else None
    decreases m
  {
    var all := PrintMembers(m) + rest;
    if m.NoMembers? {
      assert all[1..] == rest;
    } else {
      assert all[1..] == Print(m.value) + (PrintMembers(m.rest) + rest);
      WalkConsumesPrinted(m.value, PrintMembers(m.rest) + rest);
      WalkConsumesMembers(m.rest, seen + {m.key}, rest);
    }
  }

  lemma {:induction false} WalkConsumesItems(s: Items, rest: seq<Token>)
    ensures WalkItems(PrintItems(s) + rest) == if UniqueItems(s) then Some(rest) else None
    decreases s
  {
    var all := PrintItems(s) + rest;
    if s.NoItems? {
      assert all[1..] == rest;
    } else {
      assert all == Print(s.value) + (PrintItems(s.rest) + rest);
      PrintedValuesOpen(s.value);
      WalkConsumesPrinted(s.value, PrintItems(s.rest) + rest);
      WalkConsumesItems(s.rest, rest);
    }
  }

  lemma PrintedValuesOpen(v: Json)
    ensures Print(v) != [] && Print(v)[0] != CloseArray && Print(v)[0] != CloseObject
  {
  }

  /** Whatever the walk accepts is a printed value without repeated keys. */
  lemma {:induction false} WalkedTokensArePrinted(tokens: seq<Token>) returns (v: Json)
    requires Walk(tokens).Some?
    ensures UniqueKeys(v) && tokens == Print(v) + Walk(tokens).value
    decreases |tokens|, 0
  {
    match tokens[0] {
      case Scalar(literal) => v := Plain(literal);
      case Text(text) => v := Str(text);
      case OpenObject =>
        var members := WalkedMembersArePrinted(tokens[1..], {});
        v := Object(members);
      case OpenArray =>
        var items := WalkedItemsArePrinted(tokens[1..]);
        v := Array(items);
    }
  }

  lemma {:induction false} WalkedMembersArePrinted(tokens: seq<Token>, seen: set<string>) returns (m: Members)
    requires WalkMembers(tokens, seen).Some?
    ensures UniqueMembers(m) && Keys(m) !! seen && tokens == PrintMembers(m) + WalkMembers(tokens, seen).value
    decreases |tokens|, 1
  {
    if tokens[0] == CloseObject {
      m := NoMembers;
    } else {
      var value := WalkedTokensArePrinted(tokens[1..]);
      var rest := WalkedMembersArePrinted(Walk(tokens[1..]).value, seen + {tokens[0].text});
      m := Member(tokens[0].text, value, rest);
    }
  }

  lemma {:induction false} WalkedItemsArePrinted(tokens: seq<Token>) returns (s: Items)
    requires WalkItems(tokens).Some?
    ensures UniqueItems(s) && tokens == PrintItems(s) + WalkItems(tokens).value
    decreases |tokens|, 1
  {
    if tokens[0] == CloseArray {
      s := NoItems;
    } else {
      var value := WalkedTokensArePrinted(tokens);
      var rest := WalkedItemsArePrinted(Walk(tokens).value);
      s := Item(value, rest);
    }
  }

  /** For every token stream: accepted exactly when it prints one value, with
      nothing after it, that repeats no key at any depth. */
  lemma AcceptedExactly(tokens: seq<Token>)
    ensures Walk(tokens) == Some([]) <==> exists v :: UniqueKeys(v) && tokens == Print(v)
  {
    if Walk(tokens) == Some([]) {
      var v := WalkedTokensArePrinted(tokens);
      assert Print(v) + [] == Print(v);
    }
    forall v | UniqueKeys(v) && tokens == Print(v) ensures Walk(tokens) == Some([]) {
      WalkConsumesPrinted(v, []);
      assert Print(v) + [] == Print(v);
    }
  }
}

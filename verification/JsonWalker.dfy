/** The duplicate-name check of JSON documents, over the token stream of the decoder. */
module JsonWalker {
  import opened Options

  datatype Lexeme = OpenBrace | CloseBrace | OpenBracket | CloseBracket | Str(text: string) | Atom(text: string)

  datatype Json = Literal(text: string) | Text(text: string) | Obj(members: seq<Member>) | Arr(items: seq<Json>)

  datatype Member = Member(name: string, value: Json)

  // ---------- Documents and their tokens ----------

  function Lexemes(j: Json): seq<Lexeme>
    decreases j
  {
    match j
    case Literal(text) => [Atom(text)]
    case Text(text) => [Str(text)]
    case Obj(members) => [OpenBrace] + MemberLexemes(members)
    case Arr(items) => [OpenBracket] + ItemLexemes(items)
  }

  function MemberLexemes(members: seq<Member>): seq<Lexeme>
    decreases members
  {
    if members == [] then [CloseBrace]
    else [Str(members[0].name)] + Lexemes(members[0].value) + MemberLexemes(members[1..])
  }

  function ItemLexemes(items: seq<Json>): seq<Lexeme>
    decreases items
  {
    if items == [] then [CloseBracket] else Lexemes(items[0]) + ItemLexemes(items[1..])
  }

  /** The names of every object, at every depth, are distinct. */
  predicate UniqueNames(j: Json)
    decreases j
  {
    match j
    case Obj(members) =>
      && (forall a, b :: 0 <= a < b < |members| ==> members[a].name != members[b].name)
      && (forall k :: 0 <= k < |members| ==> UniqueNames(members[k].value))
    case Arr(items) => forall k :: 0 <= k < |items| ==> UniqueNames(items[k])
    case _ => true
  }

  // ---------- The walk ----------

  datatype WalkError =
    | NoToken | NameNotString | DuplicateName | UnterminatedObject | UnterminatedArray | UnexpectedDelimiter | TrailingValue

  datatype Walked = At(next: nat) | Rejected(error: WalkError)

  predicate More(lexemes: seq<Lexeme>, pos: nat) {
    pos < |lexemes| && !lexemes[pos].CloseBrace? && !lexemes[pos].CloseBracket?
  }

  /** Where the walk of the value at pos ends. */
  function Walk(lexemes: seq<Lexeme>, pos: nat): (r: Walked)
    ensures r.At? ==> pos < r.next <= |lexemes|
    decreases |lexemes| - pos, 0
  {
    if pos >= |lexemes| then Rejected(NoToken)
    else
      match lexemes[pos]
      case OpenBrace => WalkMembers(lexemes, pos + 1, {})
      case OpenBracket => WalkItems(lexemes, pos + 1)
      case CloseBrace => Rejected(UnexpectedDelimiter)
      case CloseBracket => Rejected(UnexpectedDelimiter)
      case _ => At(pos + 1)
  }

  function WalkMembers(lexemes: seq<Lexeme>, pos: nat, seen: set<string>): (r: Walked)
    ensures r.At? ==> pos < r.next <= |lexemes|
    decreases |lexemes| - pos, 1
  {
    if !More(lexemes, pos) then
      if pos >= |lexemes| then Rejected(NoToken)
      else if lexemes[pos] != CloseBrace then Rejected(UnterminatedObject)
      else At(pos + 1)
    else if !lexemes[pos].Str? then Rejected(NameNotString)
    else if lexemes[pos].text in seen then Rejected(DuplicateName)
    else
      match Walk(lexemes, pos + 1)
      case Rejected(error) => Rejected(error)
      case At(next) => WalkMembers(lexemes, next, seen + {lexemes[pos].text})
  }

  function WalkItems(lexemes: seq<Lexeme>, pos: nat): (r: Walked)
    ensures r.At? ==> pos < r.next <= |lexemes|
    decreases |lexemes| - pos, 1
  {
    if !More(lexemes, pos) then
      if pos >= |lexemes| then Rejected(NoToken)
      else if lexemes[pos] != CloseBracket then Rejected(UnterminatedArray)
      else At(pos + 1)
    else
      match Walk(lexemes, pos)
      case Rejected(error) => Rejected(error)
      case At(next) => WalkItems(lexemes, next)
  }

  /** The decoder hands out tokens until its input ends, cleanly or at a syntax error. */
  class Decoder {
    const lexemes: seq<Lexeme>
    const broken: bool
    var pos: nat

    constructor (lexemes: seq<Lexeme>, broken: bool)
      ensures this.lexemes == lexemes && this.broken == broken && pos == 0
    {
      this.lexemes, this.broken, pos := lexemes, broken, 0;
    }

    ghost predicate Valid()
      reads this
    {
      pos <= |lexemes|
    }

    predicate HasMore()
      reads this
    {
      More(lexemes, pos)
    }

    method Token() returns (r: Option<Lexeme>)
      requires Valid()
      modifies this
      ensures Valid()
      ensures if old(pos) < |lexemes| then r == Some(lexemes[old(pos)]) && pos == old(pos) + 1 else r == None && pos == old(pos)
    {
      if pos == |lexemes| {
        return None;
      }
      r := Some(lexemes[pos]);
      pos := pos + 1;
    }

    /** The walk as it consumes tokens: it ends where Walk says, and fails when Walk does. */
    method WalkValue() returns (error: Option<WalkError>)
      requires Valid()
      modifies this
      ensures Valid() && pos >= old(pos)
      ensures match Walk(lexemes, old(pos))
              case At(next) => error == None && pos == next
              case Rejected(e) => error == Some(e)
      decreases |lexemes| - pos, 0
    {
      ghost var start := pos;
      var token := Token();
      if token.None? {
        return Some(NoToken);
      }
      match token.value {
        case OpenBrace =>
          var seen: set<string> := {};
          while HasMore()
            invariant Valid() && pos > start
            invariant WalkMembers(lexemes, pos, seen) == Walk(lexemes, start)
            decreases |lexemes| - pos
          {
            var name := Token();
            if !name.value.Str? {
              return Some(NameNotString);
            }
            if name.value.text in seen {
              return Some(DuplicateName);
            }
            seen := seen + {name.value.text};
            error := WalkValue();
            if error.Some? {
              return;
            }
          }
          var end := Token();
          if end.None? {
            return Some(NoToken);
          }
          if end.value != CloseBrace {
            return Some(UnterminatedObject);
          }
        case OpenBracket =>
          while HasMore()
            invariant Valid() && pos > start
            invariant WalkItems(lexemes, pos) == Walk(lexemes, start)
            decreases |lexemes| - pos
          {
            error := WalkValue();
            if error.Some? {
              return;
            }
          }
          var end := Token();
          if end.None? {
            return Some(NoToken);
          }
          if end.value != CloseBracket {
            return Some(UnterminatedArray);
          }
        case CloseBrace =>
          return Some(UnexpectedDelimiter);
        case CloseBracket =>
          return Some(UnexpectedDelimiter);
        case _ =>
      }
      return None;
    }
  }

  // ---------- On the tokens of a document ----------

  /** Names are new, and values have unique names themselves. */
  predicate NewNames(members: seq<Member>, seen: set<string>) {
    && (forall a, b :: 0 <= a < b < |members| ==> members[a].name != members[b].name)
    && (forall k :: 0 <= k < |members| ==> members[k].name !in seen && UniqueNames(members[k].value))
  }

  lemma NewNamesStep(members: seq<Member>, seen: set<string>)
    requires members != []
    ensures NewNames(members, seen) <==>
            && members[0].name !in seen && UniqueNames(members[0].value)
            && NewNames(members[1..], seen + {members[0].name})
  {
    hide UniqueNames;
    var rest := members[1..];
    if members[0].name !in seen && UniqueNames(members[0].value) && NewNames(rest, seen + {members[0].name}) {
      forall k | 0 <= k < |members|
        ensures members[k].name !in seen && UniqueNames(members[k].value)
        ensures k > 0 ==> members[k].name != members[0].name
      {
        assert k > 0 ==> members[k] == rest[k - 1];
      }
      forall a, b | 0 <= a < b < |members|
        ensures members[a].name != members[b].name
      {
        assert a > 0 ==> members[a] == rest[a - 1] && members[b] == rest[b - 1];
      }
    }
  }

  lemma OpensWell(j: Json)
    ensures Lexemes(j) != [] && More(Lexemes(j), 0)
  {
  }

  lemma Split(lexemes: seq<Lexeme>, pos: nat, left: seq<Lexeme>, right: seq<Lexeme>)
    requires pos <= |lexemes| && left + right <= lexemes[pos..]
    ensures left <= lexemes[pos..] && pos + |left| <= |lexemes| && right <= lexemes[pos + |left|..]
  {
    var s := lexemes[pos..];
    assert s[..|left|] == (left + right)[..|left|] == left;
    assert lexemes[pos + |left|..] == s[|left|..];
    assert (left + right)[|left|..] == right;
    assert s[|left|..][..|right|] == s[..|left + right|][|left|..];
  }

  lemma SplitMembers(lexemes: seq<Lexeme>, pos: nat, members: seq<Member>)
    requires pos <= |lexemes| && MemberLexemes(members) <= lexemes[pos..] && members != []
    ensures var after := pos + 1 + |Lexemes(members[0].value)|;
            && pos < |lexemes| && lexemes[pos] == Str(members[0].name)
            && Lexemes(members[0].value) <= lexemes[pos + 1..]
            && after <= |lexemes| && MemberLexemes(members[1..]) <= lexemes[after..]
            && pos + |MemberLexemes(members)| == after + |MemberLexemes(members[1..])|
  {
    var value, rest := Lexemes(members[0].value), MemberLexemes(members[1..]);
    HeadAndTail(lexemes, pos, Str(members[0].name), value, rest);
  }

  lemma HeadAndTail(lexemes: seq<Lexeme>, pos: nat, head: Lexeme, middle: seq<Lexeme>, rest: seq<Lexeme>)
    requires pos <= |lexemes| && [head] + middle + rest <= lexemes[pos..]
    ensures pos < |lexemes| && lexemes[pos] == head && middle <= lexemes[pos + 1..]
    ensures pos + 1 + |middle| <= |lexemes| && rest <= lexemes[pos + 1 + |middle|..]
  {
    assert [head] + middle + rest == [head] + (middle + rest);
    Split(lexemes, pos, [head], middle + rest);
    Split(lexemes, pos + 1, middle, rest);
    assert [head][0] == lexemes[pos..][0];
  }

  lemma SplitItems(lexemes: seq<Lexeme>, pos: nat, items: seq<Json>)
    requires pos <= |lexemes| && ItemLexemes(items) <= lexemes[pos..] && items != []
    ensures var after := pos + |Lexemes(items[0])|;
            && More(lexemes, pos)
            && Lexemes(items[0]) <= lexemes[pos..]
            && after <= |lexemes| && ItemLexemes(items[1..]) <= lexemes[after..]
            && pos + |ItemLexemes(items)| == after + |ItemLexemes(items[1..])|
  {
    hide UniqueNames;
    OpensWell(items[0]);
    Split(lexemes, pos, Lexemes(items[0]), ItemLexemes(items[1..]));
    assert lexemes[pos] == Lexemes(items[0])[0];
  }

  /** On the tokens of a document the walk consumes exactly those tokens, or rejects a
      duplicate name; it accepts if and only if all names are unique. */
  lemma {:induction false} WalkDocument(lexemes: seq<Lexeme>, pos: nat, j: Json)
    requires pos <= |lexemes| && Lexemes(j) <= lexemes[pos..]
    ensures Walk(lexemes, pos) == if UniqueNames(j) then At(pos + |Lexemes(j)|) else Rejected(DuplicateName)
    decreases j
  {
    assert lexemes[pos] == Lexemes(j)[0];
    match j {
      case Obj(members) =>
        Split(lexemes, pos, [OpenBrace], MemberLexemes(members));
        WalkMemberList(lexemes, pos + 1, members, {});
      case Arr(items) =>
        Split(lexemes, pos, [OpenBracket], ItemLexemes(items));
        WalkItemList(lexemes, pos + 1, items);
      case _ =>
    }
  }

  lemma {:induction false} WalkMemberList(lexemes: seq<Lexeme>, pos: nat, members: seq<Member>, seen: set<string>)
    requires pos <= |lexemes| && MemberLexemes(members) <= lexemes[pos..]
    ensures WalkMembers(lexemes, pos, seen)
            == if NewNames(members, seen) then At(pos + |MemberLexemes(members)|) else Rejected(DuplicateName)
    decreases members
  {
    hide UniqueNames, Lexemes, NewNames, Walk;
    if members == [] {
      NoMembers(seen);
      assert lexemes[pos] == MemberLexemes(members)[0];
    } else {
      NewNamesStep(members, seen);
      SplitMembers(lexemes, pos, members);
      WalkDocument(lexemes, pos + 1, members[0].value);
      WalkMemberList(lexemes, pos + 1 + |Lexemes(members[0].value)|, members[1..], seen + {members[0].name});
    }
  }

  lemma NoMembers(seen: set<string>)
    ensures NewNames([], seen)
  {
  }

  lemma {:induction false} WalkItemList(lexemes: seq<Lexeme>, pos: nat, items: seq<Json>)
    requires pos <= |lexemes| && ItemLexemes(items) <= lexemes[pos..]
    ensures WalkItems(lexemes, pos)
            == if forall k :: 0 <= k < |items| ==> UniqueNames(items[k]) then At(pos + |ItemLexemes(items)|)
               else Rejected(DuplicateName)
    decreases items
  {
    hide UniqueNames, Lexemes, Walk;
    if items == [] {
      assert lexemes[pos] == ItemLexemes(items)[0];
    } else {
      SplitItems(lexemes, pos, items);
      WalkDocument(lexemes, pos, items[0]);
      WalkItemList(lexemes, pos + |Lexemes(items[0])|, items[1..]);
      assert items == [items[0]] + items[1..];
    }
  }

  // ---------- On any token stream ----------

  /** Whatever the walk accepts is the token sequence of a document with unique names. */
  lemma {:induction false} WalkedDocument(lexemes: seq<Lexeme>, pos: nat) returns (j: Json)
    requires Walk(lexemes, pos).At?
    ensures UniqueNames(j) && Lexemes(j) == lexemes[pos..Walk(lexemes, pos).next]
    decreases |lexemes| - pos, 0
  {
    match lexemes[pos] {
      case OpenBrace =>
        var members := WalkedMembers(lexemes, pos + 1, {});
        j := Obj(members);
      case OpenBracket =>
        var items := WalkedItems(lexemes, pos + 1);
        j := Arr(items);
      case Str(text) =>
        j := Text(text);
      case Atom(text) =>
        j := Literal(text);
    }
  }

  lemma {:induction false} WalkedMembers(lexemes: seq<Lexeme>, pos: nat, seen: set<string>) returns (members: seq<Member>)
    requires WalkMembers(lexemes, pos, seen).At?
    ensures NewNames(members, seen) && MemberLexemes(members) == lexemes[pos..WalkMembers(lexemes, pos, seen).next]
    decreases |lexemes| - pos, 1
  {
    hide UniqueNames, NewNames, Lexemes;
    if !More(lexemes, pos) {
      members := [];
      NoMembers(seen);
    } else {
      var value := WalkedDocument(lexemes, pos + 1);
      var next := Walk(lexemes, pos + 1).next;
      var rest := WalkedMembers(lexemes, next, seen + {lexemes[pos].text});
      members := [Member(lexemes[pos].text, value)] + rest;
      assert members[1..] == rest;
      NewNamesStep(members, seen);
    }
  }

  lemma {:induction false} WalkedItems(lexemes: seq<Lexeme>, pos: nat) returns (items: seq<Json>)
    requires WalkItems(lexemes, pos).At?
    ensures (forall k :: 0 <= k < |items| ==> UniqueNames(items[k]))
    ensures ItemLexemes(items) == lexemes[pos..WalkItems(lexemes, pos).next]
    decreases |lexemes| - pos, 1
  {
    hide UniqueNames, Lexemes;
    if !More(lexemes, pos) {
      items := [];
    } else {
      var first := WalkedDocument(lexemes, pos);
      var rest := WalkedItems(lexemes, Walk(lexemes, pos).next);
      items := [first] + rest;
      assert items[1..] == rest;
    }
  }

  /** The stream is one document with unique names, and nothing else. */
  ghost predicate OneUniqueDocument(lexemes: seq<Lexeme>) {
    exists j :: UniqueNames(j) && Lexemes(j) == lexemes
  }

  lemma AcceptsExactly(lexemes: seq<Lexeme>)
    ensures Walk(lexemes, 0) == At(|lexemes|) <==> OneUniqueDocument(lexemes)
  {
    hide UniqueNames, Lexemes, Walk;
    assert lexemes[0..] == lexemes && lexemes[0..|lexemes|] == lexemes;
    if j :| UniqueNames(j) && Lexemes(j) == lexemes {
      WalkDocument(lexemes, 0, j);
    }
    if Walk(lexemes, 0) == At(|lexemes|) {
      var j := WalkedDocument(lexemes, 0);
    }
  }

  /** Accepts exactly the streams that end cleanly after one document with unique names. */
  method ValidateUniqueJson(lexemes: seq<Lexeme>, broken: bool) returns (error: Option<WalkError>)
    ensures error == None <==> !broken && OneUniqueDocument(lexemes)
  {
    hide Walk, OneUniqueDocument;
    AcceptsExactly(lexemes);
    var decoder := new Decoder(lexemes, broken);
    error := decoder.WalkValue();
    if error.Some? {
      return;
    }
    var trailing := decoder.Token();
    if trailing.Some? {
      return Some(TrailingValue);
    }
    if decoder.broken {
      return Some(NoToken);
    }
    return None;
  }
}

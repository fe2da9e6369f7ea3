/** The walk that refuses ambiguous JSON-RPC bodies: `scanUnambiguous` (internal/mcpgate/gate.go),
    an iterative walk with an explicit stack over the decoder's tokens. */
module JsonScan {
  import opened Wrappers
  import opened Folding

  // ----- JSON values and the tokens the decoder delivers for them ------------

  datatype Json = Scalar | Text(s: Key) | Array(items: Items) | Object(members: Members)
  datatype Items = INil | ICons(head: Json, tail: Items)
  datatype Members = MNil | MCons(name: Key, value: Json, tail: Members)

  datatype Token = OpenObject | CloseObject | OpenArray | CloseArray | Word(s: Key) | Other

  function Tokens(j: Json): seq<Token> {
    match j
    case Scalar => [Other]
    case Text(s) => [Word(s)]
    case Array(items) => [OpenArray] + ItemTokens(items) + [CloseArray]
    case Object(members) => [OpenObject] + MemberTokens(members) + [CloseObject]
  }

  function ItemTokens(items: Items): seq<Token> {
    match items
    case INil => []
    case ICons(head, tail) => Tokens(head) + ItemTokens(tail)
  }

  function MemberTokens(members: Members): seq<Token> {
    match members
    case MNil => []
    case MCons(name, value, tail) => [Word(name)] + Tokens(value) + MemberTokens(tail)
  }

  // ----- the walk ------------------------------------------------------------

  const MAX_DEPTH: nat := 10000
  const MAX_KEYS: nat := 0x2_0000

  /** `keys` maps a folded name to the spelling first seen. */
  datatype Frame = Frame(isObject: bool, wantKey: bool, keys: map<Key, Key>)

  datatype Error =
    | Unparseable
    | NotAnObject
    | Duplicate(name: Key, depth: int)
    | CaseVariant(seen: Key, name: Key, depth: int)
    | TooManyNames
    | TooDeep
    | Unexpected
    | NameNotString
    | TrailingData

  datatype State = State(stack: seq<Frame>, tracked: int)

  function Top(st: State): Frame
    requires st.stack != []
  {
    st.stack[|st.stack| - 1]
  }

  function Pop(st: State): State
    requires st.stack != []
  {
    st.(stack := st.stack[..|st.stack| - 1])
  }

  function Push(st: State, f: Frame): State {
    st.(stack := st.stack + [f])
  }

  /** The state once a value has been read: an object waits for its next name. */
  function AfterValue(st: State): State
    requires st.stack != []
  {
    if Top(st).isObject then Push(Pop(st), Top(st).(wantKey := true)) else st
  }

  function Clash(seen: Key, name: Key, depth: int): Error {
    if seen == name then Duplicate(name, depth) else CaseVariant(seen, name, depth)
  }

  /** A closing object gives its names back. */
  function Closed(st: State): State
    requires st.stack != []
  {
    State(st.stack[..|st.stack| - 1], st.tracked - |Top(st).keys|)
  }

  /** The state once a new name has been read. */
  function Named(st: State, folded: Key, name: Key): State
    requires st.stack != []
  {
    State(st.stack[..|st.stack| - 1] + [Frame(Top(st).isObject, false, Top(st).keys[folded := name])], st.tracked + 1)
  }

  function OnName(fold: Key -> Key, st: State, tok: Token): Result<State, Error>
    requires st.stack != []
  {
    var top := Top(st);
    match tok
    case CloseObject => Ok(Closed(st))
    case Word(key) =>
      var folded := fold(key);
      if folded in top.keys then
        Err(Clash(top.keys[folded], key, |st.stack| - 1))
      else if st.tracked + 1 > MAX_KEYS then Err(TooManyNames)
      else Ok(Named(st, folded, key))
    case Other => Err(NameNotString)
    case _ => Err(Unexpected)
  }

  function OnValue(st: State, tok: Token): Result<State, Error>
    requires st.stack != []
  {
    match tok
    case OpenObject => Open(st, true)
    case OpenArray => Open(st, false)
    case CloseArray => Ok(Pop(st))
    case CloseObject => Err(Unexpected)
    case _ => Ok(AfterValue(st))
  }

  function Open(st: State, isObject: bool): Result<State, Error>
    requires st.stack != []
  {
    if |st.stack| >= MAX_DEPTH then Err(TooDeep) else Ok(Push(AfterValue(st), Frame(isObject, isObject, map[])))
  }

  function OnToken(fold: Key -> Key, st: State, tok: Token): Result<State, Error>
    requires st.stack != []
  {
    if Top(st).isObject && Top(st).wantKey then OnName(fold, st, tok) else OnValue(st, tok)
  }

  /** The walk from a state: what is left of the tokens once the stack is empty. */
  function Walk(fold: Key -> Key, st: State, toks: seq<Token>): Result<seq<Token>, Error>
    decreases |toks|
  {
    if st.stack == [] then Ok(toks)
    else if toks == [] then Err(Unparseable)
    else
      match OnToken(fold, st, toks[0])
      case Err(e) => Err(e)
      case Ok(next) => Walk(fold, next, toks[1..])
  }

  const START := State([Frame(true, true, map[])], 0)

  /** The decoder's More: it answers whether another value starts here, so a stray closing
      bracket after the message does not count as trailing data. */
  predicate More(toks: seq<Token>) {
    toks != [] && toks[0] != CloseObject && toks[0] != CloseArray
  }

  function Scan(fold: Key -> Key, toks: seq<Token>): Result<(), Error> {
    if toks == [] then Err(Unparseable)
    else if toks[0] != OpenObject then Err(NotAnObject)
    else
      match Walk(fold, START, toks[1..])
      case Err(e) => Err(e)
      case Ok(rest) => if More(rest) then Err(TrailingData) else Ok(())
  }

  /** One token in name position. */
  method ReadName(fold: Key -> Key, stack: seq<Frame>, tracked: int, tok: Token)
    returns (r: Result<State, Error>)
    requires stack != []
    ensures r == OnName(fold, State(stack, tracked), tok)
  {
    var top, below := stack[|stack| - 1], stack[..|stack| - 1];
    if tok == CloseObject {
      return Ok(State(below, tracked - |top.keys|));
    }
    if tok == OpenObject || tok == OpenArray || tok == CloseArray {
      return Err(Unexpected);
    }
    if !tok.Word? {
      return Err(NameNotString);
    }
    var folded := fold(tok.s);
    if folded in top.keys {
      var seen := top.keys[folded];
      return Err(if seen == tok.s then Duplicate(tok.s, |stack| - 1) else CaseVariant(seen, tok.s, |stack| - 1));
    }
    if tracked + 1 > MAX_KEYS {
      return Err(TooManyNames);
    }
    r := Ok(State(below + [Frame(top.isObject, false, top.keys[folded := tok.s])], tracked + 1));
  }

  /** One token in value position: the parent goes back to name position before the walk descends. */
  method ReadValue(stack: seq<Frame>, tracked: int, tok: Token) returns (r: Result<State, Error>)
    requires stack != []
    ensures r == OnValue(State(stack, tracked), tok)
  {
    var top, below := stack[|stack| - 1], stack[..|stack| - 1];
    var waiting := if top.isObject then below + [top.(wantKey := true)] else stack;
    if tok == OpenObject || tok == OpenArray {
      if |stack| >= MAX_DEPTH {
        return Err(TooDeep);
      }
      return Ok(State(waiting + [Frame(tok == OpenObject, tok == OpenObject, map[])], tracked));
    }
    if tok == CloseArray {
      return Ok(State(below, tracked));
    }
    if tok == CloseObject {
      return Err(Unexpected);
    }
    r := Ok(State(waiting, tracked));
  }

  /** The loop. Tokens that run out are the decoder's own error. */
  method ScanUnambiguous(fold: Key -> Key, toks: seq<Token>) returns (r: Result<(), Error>)
    ensures r == Scan(fold, toks)
  {
    if |toks| == 0 {
      return Err(Unparseable);
    }
    if toks[0] != OpenObject {
      return Err(NotAnObject);
    }
    var stack, tracked, pos := [Frame(true, true, map[])], 0, 1;
    while |stack| > 0
      invariant 1 <= pos <= |toks|
      invariant Walk(fold, START, toks[1..]) == Walk(fold, State(stack, tracked), toks[pos..])
      decreases |toks| - pos
    {
      if pos == |toks| {
        return Err(Unparseable);
      }
      var top := stack[|stack| - 1];
      assert toks[pos..][0] == toks[pos] && toks[pos..][1..] == toks[pos + 1..];
      var step: Result<State, Error>;
      if top.isObject && top.wantKey {
        step := ReadName(fold, stack, tracked, toks[pos]);
      } else {
        step := ReadValue(stack, tracked, toks[pos]);
      }
      if step.Err? {
        return Err(step.error);
      }
      stack, tracked, pos := step.value.stack, step.value.tracked, pos + 1;
    }
    if pos < |toks| && toks[pos] != CloseObject && toks[pos] != CloseArray {
      return Err(TrailingData);
    }
    r := Ok(());
  }

  // ----- what the walk keeps -------------------------------------------------

  function NamesHeld(stack: seq<Frame>): nat {
    if stack == [] then 0 else NamesHeld(stack[..|stack| - 1]) + |stack[|stack| - 1].keys|
  }

  /** Below the top, every object waits for its next name; arrays hold no names. */
  predicate Waiting(stack: seq<Frame>) {
    && (forall i :: 0 <= i < |stack| - 1 && stack[i].isObject ==> stack[i].wantKey)
    && (forall i :: 0 <= i < |stack| && !stack[i].isObject ==> stack[i].keys == map[])
  }

  /** `tracked` counts the names of the open frames, and both caps hold. */
  predicate Shape(st: State) {
    st.tracked == NamesHeld(st.stack) <= MAX_KEYS && |st.stack| <= MAX_DEPTH && Waiting(st.stack)
  }

  lemma HeldSnoc(stack: seq<Frame>, f: Frame)
    ensures NamesHeld(stack + [f]) == NamesHeld(stack) + |f.keys|
  {
    assert (stack + [f])[..|stack|] == stack;
  }

  lemma HeldAtTop(stack: seq<Frame>)
    requires stack != []
    ensures NamesHeld(stack) == NamesHeld(stack[..|stack| - 1]) + |stack[|stack| - 1].keys|
  {
  }

  lemma WaitingBelow(stack: seq<Frame>)
    requires stack != [] && Waiting(stack)
    ensures Waiting(stack[..|stack| - 1])
    ensures forall i :: 0 <= i < |stack| - 1 && stack[i].isObject ==> stack[i].wantKey
  {
  }

  lemma WaitingAbove(stack: seq<Frame>, f: Frame)
    requires Waiting(stack) && (forall i :: 0 <= i < |stack| && stack[i].isObject ==> stack[i].wantKey)
    requires f.isObject || f.keys == map[]
    ensures Waiting(stack + [f])
  {
  }

  lemma NameKeepsShape(st: State, folded: Key, name: Key)
    requires st.stack != [] && Shape(st) && Top(st).isObject && folded !in Top(st).keys && st.tracked < MAX_KEYS
    ensures Shape(Named(st, folded, name))
  {
    var below, f := st.stack[..|st.stack| - 1], Frame(true, false, Top(st).keys[folded := name]);
    HeldAtTop(st.stack);
    HeldSnoc(below, f);
    WaitingBelow(st.stack);
    WaitingAbove(below, f);
  }

  lemma CloseKeepsShape(st: State)
    requires st.stack != [] && Shape(st)
    ensures Shape(Closed(st)) && (!Top(st).isObject ==> Closed(st) == Pop(st))
  {
    HeldAtTop(st.stack);
    WaitingBelow(st.stack);
  }

  lemma AfterValueKeepsShape(st: State)
    requires st.stack != [] && Shape(st)
    ensures Shape(AfterValue(st)) && |AfterValue(st).stack| == |st.stack|
    ensures forall f :: f in AfterValue(st).stack && f.isObject ==> f.wantKey
  {
    var below, f := st.stack[..|st.stack| - 1], Top(st).(wantKey := true);
    HeldAtTop(st.stack);
    WaitingBelow(st.stack);
    if Top(st).isObject {
      HeldSnoc(below, f);
      WaitingAbove(below, f);
    }
  }

  lemma OpenKeepsShape(st: State, isObject: bool)
    requires st.stack != [] && Shape(st) && |st.stack| < MAX_DEPTH
    ensures Shape(Push(AfterValue(st), Frame(isObject, isObject, map[])))
  {
    AfterValueKeepsShape(st);
    HeldSnoc(AfterValue(st).stack, Frame(isObject, isObject, map[]));
    WaitingAbove(AfterValue(st).stack, Frame(isObject, isObject, map[]));
  }

  /** Every token the walk accepts keeps the shape, so it never holds more than the caps allow. A
      decoder closes an array only where one is open. */
  lemma TokenKeepsShape(fold: Key -> Key, st: State, tok: Token)
    requires st.stack != [] && Shape(st) && OnToken(fold, st, tok).Ok?
    requires tok == CloseArray ==> !Top(st).isObject
    ensures Shape(OnToken(fold, st, tok).value)
  {
    if Top(st).isObject && Top(st).wantKey {
      if tok.Word? {
        NameKeepsShape(st, fold(tok.s), tok.s);
      } else {
        CloseKeepsShape(st);
      }
    } else {
      match tok
      case OpenObject => OpenKeepsShape(st, true);
      case OpenArray => OpenKeepsShape(st, false);
      case CloseArray => CloseKeepsShape(st);
      case _ => AfterValueKeepsShape(st);
    }
  }

  // ----- the same verdict, by recursion on the value -------------------------

  /** The first thing wrong inside a value that stands at `depth` open containers while `tracked`
      names are held. */
  function CheckValue(fold: Key -> Key, j: Json, depth: nat, tracked: nat): Option<Error> {
    match j
    case Array(items) => if depth >= MAX_DEPTH then Some(TooDeep) else CheckItems(fold, items, depth + 1, tracked)
    case Object(members) =>
      if depth >= MAX_DEPTH then Some(TooDeep)
      else CheckMembers(fold, members, map[], depth + 1, tracked)
    case _ => None
  }

  function CheckItems(fold: Key -> Key, items: Items, depth: nat, tracked: nat): Option<Error> {
    match items
    case INil => None
    case ICons(head, tail) =>
      match CheckValue(fold, head, depth, tracked)
      case Some(e) => Some(e)
      case None => CheckItems(fold, tail, depth, tracked)
  }

  function CheckMembers(fold: Key -> Key, members: Members, keys: map<Key, Key>, depth: nat,
                        tracked: nat): Option<Error> {
    match members
    case MNil => None
    case MCons(name, value, tail) =>
      var folded := fold(name);
      if folded in keys then
        Some(Clash(keys[folded], name, depth - 1))
      else if tracked + 1 > MAX_KEYS then Some(TooManyNames)
      else
        match CheckValue(fold, value, depth, tracked + 1)
        case Some(e) => Some(e)
        case None => CheckMembers(fold, tail, keys[folded := name], depth, tracked + 1)
  }

  /** Taking one token off the front. */
  lemma WalkFirst(fold: Key -> Key, st: State, tok: Token, rest: seq<Token>)
    requires st.stack != []
    ensures OnToken(fold, st, tok).Err? ==> Walk(fold, st, [tok] + rest) == Err(OnToken(fold, st, tok).error)
    ensures OnToken(fold, st, tok).Ok? ==>
            Walk(fold, st, [tok] + rest) == Walk(fold, OnToken(fold, st, tok).value, rest)
  {
    assert ([tok] + rest)[1..] == rest;
  }

  predicate InValuePosition(st: State) {
    st.stack != [] && !(Top(st).isObject && Top(st).wantKey) && st.tracked >= 0
  }

  function Inner(st: State, isObject: bool): State
    requires st.stack != []
  {
    Push(AfterValue(st), Frame(isObject, isObject, map[]))
  }

  lemma OpenToken(fold: Key -> Key, st: State, isObject: bool, rest: seq<Token>)
    requires InValuePosition(st)
    ensures var inner := Inner(st, isObject);
            && Walk(fold, st, [if isObject then OpenObject else OpenArray] + rest)
               == (if |st.stack| >= MAX_DEPTH then Err(TooDeep) else Walk(fold, inner, rest))
            && |inner.stack| == |st.stack| + 1 && Pop(inner) == Closed(inner) == AfterValue(st)
            && Top(inner) == Frame(isObject, isObject, map[]) && inner.tracked == st.tracked
  {
    WalkFirst(fold, st, if isObject then OpenObject else OpenArray, rest);
    var inner := Push(AfterValue(st), Frame(isObject, isObject, map[]));
    assert inner.stack[..|inner.stack| - 1] == AfterValue(st).stack;
  }

  lemma TokensApart(j: Json, rest: seq<Token>)
    ensures j.Array? ==> Tokens(j) + rest == [OpenArray] + (ItemTokens(j.items) + ([CloseArray] + rest))
    ensures j.Object? ==> Tokens(j) + rest == [OpenObject] + (MemberTokens(j.members) + ([CloseObject] + rest))
  {
  }

  lemma {:induction false} WalkValue(fold: Key -> Key, j: Json, st: State, rest: seq<Token>)
    requires InValuePosition(st)
    ensures var verdict := CheckValue(fold, j, |st.stack|, st.tracked);
            Walk(fold, st, Tokens(j) + rest)
            == if verdict.Some? then Err(verdict.value) else Walk(fold, AfterValue(st), rest)
    decreases j
  {
    TokensApart(j, rest);
    match j
    case Array(items) => WalkArray(fold, items, st, rest);
    case Object(members) => WalkObject(fold, members, st, rest);
    case Text(s) => WalkFirst(fold, st, Word(s), rest);
    case Scalar => WalkFirst(fold, st, Other, rest);
  }

  lemma {:induction false} WalkArray(fold: Key -> Key, items: Items, st: State, rest: seq<Token>)
    requires InValuePosition(st)
    ensures var verdict := CheckValue(fold, Array(items), |st.stack|, st.tracked);
            Walk(fold, st, [OpenArray] + (ItemTokens(items) + ([CloseArray] + rest)))
            == if verdict.Some? then Err(verdict.value) else Walk(fold, AfterValue(st), rest)
    decreases items, 1
  {
    OpenToken(fold, st, false, ItemTokens(items) + ([CloseArray] + rest));
    if |st.stack| < MAX_DEPTH {
      WalkItems(fold, items, Inner(st, false), rest);
    }
  }

  lemma {:induction false} WalkObject(fold: Key -> Key, members: Members, st: State, rest: seq<Token>)
    requires InValuePosition(st)
    ensures var verdict := CheckValue(fold, Object(members), |st.stack|, st.tracked);
            Walk(fold, st, [OpenObject] + (MemberTokens(members) + ([CloseObject] + rest)))
            == if verdict.Some? then Err(verdict.value) else Walk(fold, AfterValue(st), rest)
    decreases members, 1
  {
    OpenToken(fold, st, true, MemberTokens(members) + ([CloseObject] + rest));
    if |st.stack| < MAX_DEPTH {
      WalkMembers(fold, members, Inner(st, true), rest);
    }
  }

  lemma {:induction false} WalkItems(fold: Key -> Key, items: Items, st: State, rest: seq<Token>)
    requires InValuePosition(st) && !Top(st).isObject
    ensures var verdict := CheckItems(fold, items, |st.stack|, st.tracked);
            Walk(fold, st, ItemTokens(items) + ([CloseArray] + rest))
            == if verdict.Some? then Err(verdict.value) else Walk(fold, Pop(st), rest)
    decreases items, 0
  {
    match items
    case INil =>
      assert ItemTokens(items) + ([CloseArray] + rest) == [CloseArray] + rest;
      WalkFirst(fold, st, CloseArray, rest);
    case ICons(head, tail) =>
      var after := ItemTokens(tail) + ([CloseArray] + rest);
      assert ItemTokens(items) + ([CloseArray] + rest) == Tokens(head) + after;
      WalkValue(fold, head, st, after);
      WalkItems(fold, tail, st, rest);
  }

  lemma {:induction false} WalkMembers(fold: Key -> Key, members: Members, st: State, rest: seq<Token>)
    requires st.stack != [] && st.tracked >= 0 && Top(st).isObject && Top(st).wantKey
    ensures var verdict := CheckMembers(fold, members, Top(st).keys, |st.stack|, st.tracked);
            Walk(fold, st, MemberTokens(members) + ([CloseObject] + rest))
            == if verdict.Some? then Err(verdict.value)
               else Walk(fold, Closed(st), rest)
    decreases members, 0
  {
    MembersApart(members, rest);
    match members
    case MNil =>
      WalkFirst(fold, st, CloseObject, rest);
    case MCons(name, value, tail) =>
      var after := MemberTokens(tail) + ([CloseObject] + rest);
      NameToken(fold, st, name, Tokens(value) + after);
      var keys, folded := Top(st).keys, fold(name);
      if folded !in keys && st.tracked + 1 <= MAX_KEYS {
        var named := Named(st, folded, name);
        NameRead(st, folded, name);
        WalkValue(fold, value, named, after);
        WalkMembers(fold, tail, AfterValue(named), rest);
      }
  }

  lemma MembersApart(members: Members, rest: seq<Token>)
    ensures members.MNil? ==> MemberTokens(members) + ([CloseObject] + rest) == [CloseObject] + rest
    ensures members.MCons? ==>
              MemberTokens(members) + ([CloseObject] + rest)
              == [Word(members.name)] + (Tokens(members.value) + (MemberTokens(members.tail) + ([CloseObject] + rest)))
  {
  }

  lemma NameToken(fold: Key -> Key, st: State, name: Key, rest: seq<Token>)
    requires st.stack != [] && st.tracked >= 0 && Top(st).isObject && Top(st).wantKey
    ensures var keys, folded := Top(st).keys, fold(name);
            Walk(fold, st, [Word(name)] + rest)
            == if folded in keys then Err(Clash(keys[folded], name, |st.stack| - 1))
               else if st.tracked + 1 > MAX_KEYS then Err(TooManyNames)
               else Walk(fold, Named(st, folded, name), rest)
  {
    WalkFirst(fold, st, Word(name), rest);
  }

  /** What reading a new name leaves: one more name held, in a frame that waits for the next one
      once the value is read. */
  lemma NameRead(st: State, folded: Key, name: Key)
    requires st.stack != [] && st.tracked >= 0 && Top(st).isObject && folded !in Top(st).keys
    ensures var named := Named(st, folded, name);
            var after := AfterValue(named);
            && InValuePosition(named) && |named.stack| == |st.stack| == |after.stack|
            && named.tracked == after.tracked == st.tracked + 1
            && Top(after) == Frame(true, true, Top(st).keys[folded := name])
            && Closed(after) == Closed(st)
  {
    var named := Named(st, folded, name);
    assert Pop(named).stack == Pop(st).stack;
    assert Pop(AfterValue(named)).stack == Pop(named).stack;
  }

  function ScanValue(fold: Key -> Key, j: Json, trailing: seq<Token>): Result<(), Error> {
    if !j.Object? then Err(NotAnObject)
    else
      match CheckMembers(fold, j.members, map[], 1, 0)
      case Some(e) => Err(e)
      case None => if More(trailing) then Err(TrailingData) else Ok(())
  }

  /** The loop and the recursion report the same error, or none, for every JSON value. */
  lemma ScanIsRecursive(fold: Key -> Key, j: Json, trailing: seq<Token>)
    ensures Scan(fold, Tokens(j) + trailing) == ScanValue(fold, j, trailing)
  {
    var toks := Tokens(j) + trailing;
    if j.Object? {
      assert toks == [OpenObject] + (MemberTokens(j.members) + ([CloseObject] + trailing));
      assert toks[1..] == MemberTokens(j.members) + ([CloseObject] + trailing);
      WalkMembers(fold, j.members, START, trailing);
    }
  }

  // ----- no state of the walk is past the caps -------------------------------

  /** The walk keeps its shape from this state on, token after token, as far as it gets. */
  predicate KeepsShape(fold: Key -> Key, st: State, toks: seq<Token>)
    decreases |toks|
  {
    && Shape(st)
    && (st.stack != [] && toks != [] && OnToken(fold, st, toks[0]).Ok? ==>
          KeepsShape(fold, OnToken(fold, st, toks[0]).value, toks[1..]))
  }

  lemma ShapeFirst(fold: Key -> Key, st: State, tok: Token, rest: seq<Token>)
    requires st.stack != [] && Shape(st) && (tok == CloseArray ==> !Top(st).isObject)
    requires OnToken(fold, st, tok).Ok? ==> KeepsShape(fold, OnToken(fold, st, tok).value, rest)
    ensures KeepsShape(fold, st, [tok] + rest)
  {
    assert ([tok] + rest)[1..] == rest;
    if OnToken(fold, st, tok).Ok? {
      TokenKeepsShape(fold, st, tok);
    }
  }

  lemma InnerIsFresh(fold: Key -> Key, st: State, isObject: bool)
    requires InValuePosition(st) && Shape(st) && |st.stack| < MAX_DEPTH
    ensures var inner := Inner(st, isObject);
            && inner.stack != [] && inner.tracked >= 0 && Shape(inner)
            && Top(inner) == Frame(isObject, isObject, map[]) && Pop(inner) == Closed(inner) == AfterValue(st)
  {
    OpenKeepsShape(st, isObject);
    OpenToken(fold, st, isObject, []);
  }

  lemma OpenFirst(fold: Key -> Key, st: State, isObject: bool, rest: seq<Token>)
    requires InValuePosition(st) && Shape(st)
    requires |st.stack| < MAX_DEPTH ==> KeepsShape(fold, Inner(st, isObject), rest)
    ensures KeepsShape(fold, st, [if isObject then OpenObject else OpenArray] + rest)
  {
    ShapeFirst(fold, st, if isObject then OpenObject else OpenArray, rest);
  }

  /** On the tokens of a value, whose brackets match. */
  lemma {:induction false} ValueKeepsShape(fold: Key -> Key, j: Json, st: State, rest: seq<Token>)
    requires InValuePosition(st) && Shape(st) && KeepsShape(fold, AfterValue(st), rest)
    ensures KeepsShape(fold, st, Tokens(j) + rest)
    decreases j
  {
    TokensApart(j, rest);
    match j
    case Array(items) => ArrayKeepsShape(fold, items, st, rest);
    case Object(members) => ObjectKeepsShape(fold, members, st, rest);
    case Text(s) => LeafKeepsShape(fold, st, Word(s), rest);
    case Scalar => LeafKeepsShape(fold, st, Other, rest);
  }

  lemma LeafKeepsShape(fold: Key -> Key, st: State, tok: Token, rest: seq<Token>)
    requires InValuePosition(st) && Shape(st) && KeepsShape(fold, AfterValue(st), rest) && (tok.Word? || tok.Other?)
    ensures KeepsShape(fold, st, [tok] + rest)
  {
    ShapeFirst(fold, st, tok, rest);
  }

  lemma {:induction false} ArrayKeepsShape(fold: Key -> Key, items: Items, st: State, rest: seq<Token>)
    requires InValuePosition(st) && Shape(st) && KeepsShape(fold, AfterValue(st), rest)
    ensures KeepsShape(fold, st, [OpenArray] + (ItemTokens(items) + ([CloseArray] + rest)))
    decreases items, 1
  {
    if |st.stack| < MAX_DEPTH {
      InnerIsFresh(fold, st, false);
      ItemsKeepShape(fold, items, Inner(st, false), rest);
    }
    OpenFirst(fold, st, false, ItemTokens(items) + ([CloseArray] + rest));
  }

  lemma {:induction false} ObjectKeepsShape(fold: Key -> Key, members: Members, st: State, rest: seq<Token>)
    requires InValuePosition(st) && Shape(st) && KeepsShape(fold, AfterValue(st), rest)
    ensures KeepsShape(fold, st, [OpenObject] + (MemberTokens(members) + ([CloseObject] + rest)))
    decreases members, 1
  {
    if |st.stack| < MAX_DEPTH {
      InnerIsFresh(fold, st, true);
      MembersKeepShape(fold, members, Inner(st, true), rest);
    }
    OpenFirst(fold, st, true, MemberTokens(members) + ([CloseObject] + rest));
  }

  lemma {:induction false} ItemsKeepShape(fold: Key -> Key, items: Items, st: State, rest: seq<Token>)
    requires InValuePosition(st) && !Top(st).isObject && Shape(st) && KeepsShape(fold, Pop(st), rest)
    ensures KeepsShape(fold, st, ItemTokens(items) + ([CloseArray] + rest))
    decreases items, 0
  {
    match items
    case INil =>
      assert ItemTokens(items) + ([CloseArray] + rest) == [CloseArray] + rest;
      ShapeFirst(fold, st, CloseArray, rest);
    case ICons(head, tail) =>
      var after := ItemTokens(tail) + ([CloseArray] + rest);
      assert ItemTokens(items) + ([CloseArray] + rest) == Tokens(head) + after;
      ItemsKeepShape(fold, tail, st, rest);
      ValueKeepsShape(fold, head, st, after);
  }

  lemma {:induction false} MembersKeepShape(fold: Key -> Key, members: Members, st: State, rest: seq<Token>)
    requires st.stack != [] && st.tracked >= 0 && Top(st).isObject && Top(st).wantKey
    requires Shape(st) && KeepsShape(fold, Closed(st), rest)
    ensures KeepsShape(fold, st, MemberTokens(members) + ([CloseObject] + rest))
    decreases members, 0
  {
    MembersApart(members, rest);
    match members
    case MNil =>
      ShapeFirst(fold, st, CloseObject, rest);
    case MCons(name, value, tail) =>
      var after := MemberTokens(tail) + ([CloseObject] + rest);
      var folded := fold(name);
      if folded !in Top(st).keys && st.tracked < MAX_KEYS {
        var named := Named(st, folded, name);
        NameKeepsShape(st, folded, name);
        NameRead(st, folded, name);
        AfterValueKeepsShape(named);
        MembersKeepShape(fold, tail, AfterValue(named), rest);
        ValueKeepsShape(fold, value, named, after);
      }
      ShapeFirst(fold, st, Word(name), Tokens(value) + after);
  }

  /** In every state the walk passes through, on any JSON value with anything after it, `tracked` is
      the number of names of the open objects, at most MAX_KEYS names are held and at most MAX_DEPTH
      containers are open. */
  lemma WalkIsBounded(fold: Key -> Key, j: Json, trailing: seq<Token>)
    requires j.Object?
    ensures Tokens(j) + trailing != [] && KeepsShape(fold, START, (Tokens(j) + trailing)[1..])
  {
    var toks := Tokens(j) + trailing;
    assert toks == [OpenObject] + (MemberTokens(j.members) + ([CloseObject] + trailing));
    assert toks[1..] == MemberTokens(j.members) + ([CloseObject] + trailing);
    HeldSnoc([], Frame(true, true, map[]));
    assert [] + [Frame(true, true, map[])] == START.stack;
    MembersKeepShape(fold, j.members, START, trailing);
  }

  // ----- what acceptance means -----------------------------------------------

  function FoldedNames(fold: Key -> Key, members: Members): set<Key> {
    match members
    case MNil => {}
    case MCons(name, _, tail) => {fold(name)} + FoldedNames(fold, tail)
  }

  /** No two names of the object have one folded spelling. */
  predicate DistinctFolds(fold: Key -> Key, members: Members) {
    match members
    case MNil => true
    case MCons(name, _, tail) => fold(name) !in FoldedNames(fold, tail) && DistinctFolds(fold, tail)
  }

  /** ... and the same at every depth. */
  predicate Clean(fold: Key -> Key, j: Json) {
    match j
    case Array(items) => CleanItems(fold, items)
    case Object(members) => DistinctFolds(fold, members) && CleanMembers(fold, members)
    case _ => true
  }

  predicate CleanItems(fold: Key -> Key, items: Items) {
    match items
    case INil => true
    case ICons(head, tail) => Clean(fold, head) && CleanItems(fold, tail)
  }

  predicate CleanMembers(fold: Key -> Key, members: Members) {
    match members
    case MNil => true
    case MCons(_, value, tail) => Clean(fold, value) && CleanMembers(fold, tail)
  }

  function Max(a: nat, b: nat): nat { if a >= b then a else b }

  /** How deep containers nest. */
  function Nesting(j: Json): nat {
    match j
    case Array(items) => 1 + ItemNesting(items)
    case Object(members) => 1 + MemberNesting(members)
    case _ => 0
  }

  function ItemNesting(items: Items): nat {
    match items
    case INil => 0
    case ICons(head, tail) => Max(Nesting(head), ItemNesting(tail))
  }

  function MemberNesting(members: Members): nat {
    match members
    case MNil => 0
    case MCons(_, value, tail) => Max(Nesting(value), MemberNesting(tail))
  }

  /** How many names of open objects a left-to-right reading holds at once, at worst. */
  function Peak(j: Json): nat {
    match j
    case Array(items) => ItemPeak(items)
    case Object(members) => MemberPeak(members)
    case _ => 0
  }

  function ItemPeak(items: Items): nat {
    match items
    case INil => 0
    case ICons(head, tail) => Max(Peak(head), ItemPeak(tail))
  }

  function MemberPeak(members: Members): nat {
    match members
    case MNil => 0
    case MCons(_, value, tail) => 1 + Max(Peak(value), MemberPeak(tail))
  }

  lemma {:induction false} ValueFine(fold: Key -> Key, j: Json, depth: nat, tracked: nat)
    requires depth <= MAX_DEPTH && tracked <= MAX_KEYS
    ensures CheckValue(fold, j, depth, tracked).None?
       <==> Clean(fold, j) && depth + Nesting(j) <= MAX_DEPTH && tracked + Peak(j) <= MAX_KEYS
    decreases j
  {
    match j
    case Array(items) =>
      if depth < MAX_DEPTH { ItemsFine(fold, items, depth + 1, tracked); }
    case Object(members) =>
      if depth < MAX_DEPTH { MembersFine(fold, members, map[], depth + 1, tracked); }
    case _ =>
  }

  lemma {:induction false} ItemsFine(fold: Key -> Key, items: Items, depth: nat, tracked: nat)
    requires depth <= MAX_DEPTH && tracked <= MAX_KEYS
    ensures CheckItems(fold, items, depth, tracked).None?
       <==> CleanItems(fold, items) && depth + ItemNesting(items) <= MAX_DEPTH && tracked + ItemPeak(items) <= MAX_KEYS
    decreases items
  {
    if items.ICons? {
      ValueFine(fold, items.head, depth, tracked);
      ItemsFine(fold, items.tail, depth, tracked);
    }
  }

  lemma {:induction false} MembersFine(fold: Key -> Key, members: Members, keys: map<Key, Key>, depth: nat,
                                       tracked: nat)
    requires depth <= MAX_DEPTH && tracked <= MAX_KEYS
    ensures CheckMembers(fold, members, keys, depth, tracked).None?
       <==> DistinctFolds(fold, members) && FoldedNames(fold, members) !! keys.Keys && CleanMembers(fold, members)
            && depth + MemberNesting(members) <= MAX_DEPTH && tracked + MemberPeak(members) <= MAX_KEYS
    decreases members
  {
    if members.MCons? && tracked + 1 <= MAX_KEYS {
      ValueFine(fold, members.value, depth, tracked + 1);
      var keys' := keys[fold(members.name) := members.name];
      MembersFine(fold, members.tail, keys', depth, tracked + 1);
      assert keys'.Keys == keys.Keys + {fold(members.name)};
    }
  }

  /** A body is accepted exactly when it is one object, no object in it at any depth has two names
      of one folded spelling, the two caps hold, and nothing follows but perhaps a stray bracket. */
  lemma AcceptsExactly(fold: Key -> Key, j: Json, trailing: seq<Token>)
    ensures Scan(fold, Tokens(j) + trailing) == Ok(())
       <==> && j.Object? && Clean(fold, j) && Nesting(j) <= MAX_DEPTH && Peak(j) <= MAX_KEYS
            && (trailing == [] || trailing[0] == CloseObject || trailing[0] == CloseArray)
  {
    ScanIsRecursive(fold, j, trailing);
    if j.Object? {
      MembersFine(fold, j.members, map[], 1, 0);
    }
  }

  /** A second value after an accepted one is refused, whatever comes after it. */
  lemma SecondValueIsRefused(fold: Key -> Key, j: Json, k: Json, rest: seq<Token>)
    requires Scan(fold, Tokens(j)) == Ok(())
    ensures Scan(fold, Tokens(j) + Tokens(k) + rest) == Err(TrailingData)
  {
    assert Tokens(j) + [] == Tokens(j);
    ScanIsRecursive(fold, j, []);
    assert Tokens(j) + Tokens(k) + rest == Tokens(j) + (Tokens(k) + rest);
    ScanIsRecursive(fold, j, Tokens(k) + rest);
    assert Tokens(k)[0] != CloseObject && Tokens(k)[0] != CloseArray;
  }

  // ----- a body that breaks off ----------------------------------------------

  /** More tokens change no verdict but the one on tokens that run out. */
  lemma {:induction false} WalkMore(fold: Key -> Key, st: State, toks: seq<Token>, more: seq<Token>)
    ensures var r := Walk(fold, st, toks);
            && (r.Ok? ==> Walk(fold, st, toks + more) == Ok(r.value + more))
            && (r.Err? && r.error != Unparseable ==> Walk(fold, st, toks + more) == r)
    decreases |toks|
  {
    if st.stack != [] && toks != [] {
      assert (toks + more)[1..] == toks[1..] + more;
      if OnToken(fold, st, toks[0]).Ok? {
        WalkMore(fold, OnToken(fold, st, toks[0]).value, toks[1..], more);
      }
    }
  }

  lemma WalkEnds(fold: Key -> Key, j: Json)
    requires j.Object?
    ensures Tokens(j)[0] == OpenObject
    ensures var r := Walk(fold, START, Tokens(j)[1..]);
            r == Ok([]) || (r.Err? && Scan(fold, Tokens(j)) == Err(r.error))
  {
    assert Tokens(j)[1..] == MemberTokens(j.members) + ([CloseObject] + []);
    WalkMembers(fold, j.members, START, []);
  }

  /** A body cut anywhere is refused, as unparseable or for what is wrong with the part that came. */
  lemma TruncatedIsRefused(fold: Key -> Key, j: Json, n: nat)
    requires n < |Tokens(j)|
    ensures var r := Scan(fold, Tokens(j)[..n]);
            r == Err(Unparseable) || (r.Err? && r == Scan(fold, Tokens(j)))
  {
    var toks := Tokens(j);
    if n > 0 && toks[0] == OpenObject {
      var part, more := toks[..n][1..], toks[n..];
      assert part + more == toks[1..];
      WalkMore(fold, START, part, more);
      WalkEnds(fold, j);
    }
  }

  // ----- what a refusal says -------------------------------------------------

  predicate HasName(members: Members, name: Key) {
    match members
    case MNil => false
    case MCons(n, _, tail) => n == name || HasName(tail, name)
  }

  /** `first` is a name of the object, and `second` a later one. */
  predicate HasBoth(members: Members, first: Key, second: Key) {
    match members
    case MNil => false
    case MCons(n, _, tail) => (n == first && HasName(tail, second)) || HasBoth(tail, first, second)
  }

  /** `members` is an object of the value, inside `depth` other containers of it. */
  predicate WithinAt(members: Members, j: Json, depth: nat) {
    match j
    case Array(items) => depth > 0 && WithinItemsAt(members, items, depth - 1)
    case Object(ms) => (depth == 0 && members == ms) || (depth > 0 && WithinMembersAt(members, ms, depth - 1))
    case _ => false
  }

  predicate WithinItemsAt(members: Members, items: Items, depth: nat) {
    match items
    case INil => false
    case ICons(head, tail) => WithinAt(members, head, depth) || WithinItemsAt(members, tail, depth)
  }

  predicate WithinMembersAt(members: Members, ms: Members, depth: nat) {
    match ms
    case MNil => false
    case MCons(_, value, tail) => WithinAt(members, value, depth) || WithinMembersAt(members, tail, depth)
  }

  /** The error names two names of one folded spelling, one of them `first`, the later one `second`. */
  predicate NamesPair(fold: Key -> Key, e: Error, first: Key, second: Key, depth: nat) {
    && fold(first) == fold(second)
    && e == if first == second then Duplicate(second, depth) else CaseVariant(first, second, depth)
  }

  /** Where the pair is that the error names, in a value that stands inside `depth` containers. */
  ghost predicate PairIn(fold: Key -> Key, e: Error, j: Json, depth: nat) {
    exists members, first, second, d: nat ::
      WithinAt(members, j, d) && HasBoth(members, first, second) && NamesPair(fold, e, first, second, depth + d)
  }

  ghost predicate PairInItems(fold: Key -> Key, e: Error, items: Items, depth: nat) {
    exists members, first, second, d: nat ::
      WithinItemsAt(members, items, d) && HasBoth(members, first, second)
      && NamesPair(fold, e, first, second, depth + d)
  }

  ghost predicate PairInMembers(fold: Key -> Key, e: Error, ms: Members, depth: nat) {
    exists members, first, second, d: nat ::
      WithinMembersAt(members, ms, d) && HasBoth(members, first, second)
      && NamesPair(fold, e, first, second, depth + d)
  }

  /** The later name is one of `members`, the earlier one was read before them. */
  ghost predicate PairAcross(fold: Key -> Key, e: Error, keys: map<Key, Key>, members: Members, depth: nat) {
    exists second :: HasName(members, second) && fold(second) in keys
                     && NamesPair(fold, e, keys[fold(second)], second, depth)
  }

  ghost predicate PairHere(fold: Key -> Key, e: Error, members: Members, depth: nat) {
    exists first, second :: HasBoth(members, first, second) && NamesPair(fold, e, first, second, depth)
  }

  /** Names are held under their folded spelling. */
  predicate Filed(fold: Key -> Key, keys: map<Key, Key>) {
    forall k :: k in keys ==> fold(keys[k]) == k
  }
  /** What an error says: the cap it names is exceeded, or the pair it names is there. */
  ghost predicate Says(e: Error, depth: nat, nesting: nat, tracked: nat, peak: nat, pair: bool) {
    || (e == TooDeep && depth + nesting > MAX_DEPTH)
    || (e == TooManyNames && tracked + peak > MAX_KEYS)
    || pair
  }

  lemma PairLifts(fold: Key -> Key, e: Error, j: Json, depth: nat)
    ensures j.Array? && PairInItems(fold, e, j.items, depth + 1) ==> PairIn(fold, e, j, depth)
    ensures j.Object? && PairHere(fold, e, j.members, depth) ==> PairIn(fold, e, j, depth)
    ensures j.Object? && PairInMembers(fold, e, j.members, depth + 1) ==> PairIn(fold, e, j, depth)
  {
    if j.Array? && PairInItems(fold, e, j.items, depth + 1) {
      var ms, a, b, d: nat :|
        WithinItemsAt(ms, j.items, d) && HasBoth(ms, a, b) && NamesPair(fold, e, a, b, depth + 1 + d);
      assert WithinAt(ms, j, d + 1) && NamesPair(fold, e, a, b, depth + (d + 1));
    }
    if j.Object? && PairHere(fold, e, j.members, depth) {
      var a, b :| HasBoth(j.members, a, b) && NamesPair(fold, e, a, b, depth);
      assert WithinAt(j.members, j, 0) && NamesPair(fold, e, a, b, depth + 0);
    }
    if j.Object? && PairInMembers(fold, e, j.members, depth + 1) {
      var ms, a, b, d: nat :|
        WithinMembersAt(ms, j.members, d) && HasBoth(ms, a, b) && NamesPair(fold, e, a, b, depth + 1 + d);
      assert WithinAt(ms, j, d + 1) && NamesPair(fold, e, a, b, depth + (d + 1));
    }
  }

  lemma {:induction false} ValueSays(fold: Key -> Key, j: Json, depth: nat, tracked: nat)
    requires depth <= MAX_DEPTH && tracked <= MAX_KEYS && CheckValue(fold, j, depth, tracked).Some?
    ensures var e := CheckValue(fold, j, depth, tracked).value;
            Says(e, depth, Nesting(j), tracked, Peak(j), PairIn(fold, e, j, depth))
    decreases j
  {
    if depth < MAX_DEPTH {
      PairLifts(fold, CheckValue(fold, j, depth, tracked).value, j, depth);
      match j
      case Array(items) => ItemsSay(fold, items, depth + 1, tracked);
      case Object(members) => MembersSay(fold, members, map[], depth + 1, tracked);
    }
  }

  lemma {:induction false} ItemsSay(fold: Key -> Key, items: Items, depth: nat, tracked: nat)
    requires depth <= MAX_DEPTH && tracked <= MAX_KEYS && CheckItems(fold, items, depth, tracked).Some?
    ensures var e := CheckItems(fold, items, depth, tracked).value;
            Says(e, depth, ItemNesting(items), tracked, ItemPeak(items), PairInItems(fold, e, items, depth))
    decreases items
  {
    var e := CheckItems(fold, items, depth, tracked).value;
    PairInItem(fold, e, items, depth);
    if CheckValue(fold, items.head, depth, tracked).Some? {
      ValueSays(fold, items.head, depth, tracked);
    } else {
      ItemsSay(fold, items.tail, depth, tracked);
    }
  }

  lemma PairInItem(fold: Key -> Key, e: Error, items: Items, depth: nat)
    requires items.ICons?
    ensures PairIn(fold, e, items.head, depth) || PairInItems(fold, e, items.tail, depth) ==>
              PairInItems(fold, e, items, depth)
  {
    if PairIn(fold, e, items.head, depth) {
      var ms, a, b, d: nat :|
        WithinAt(ms, items.head, d) && HasBoth(ms, a, b) && NamesPair(fold, e, a, b, depth + d);
      assert WithinItemsAt(ms, items, d);
    }
    if PairInItems(fold, e, items.tail, depth) {
      var ms, a, b, d: nat :|
        WithinItemsAt(ms, items.tail, d) && HasBoth(ms, a, b) && NamesPair(fold, e, a, b, depth + d);
      assert WithinItemsAt(ms, items, d);
    }
  }

  /** The pair may also lie across the names read before, which `keys` holds. */
  ghost predicate PairAmong(fold: Key -> Key, e: Error, keys: map<Key, Key>, members: Members, depth: nat) {
    || PairAcross(fold, e, keys, members, depth) || PairHere(fold, e, members, depth)
    || PairInMembers(fold, e, members, depth + 1)
  }

  lemma PairInTail(fold: Key -> Key, e: Error, keys: map<Key, Key>, members: Members, depth: nat)
    requires members.MCons?
    requires PairAmong(fold, e, keys[fold(members.name) := members.name], members.tail, depth)
    ensures PairAmong(fold, e, keys, members, depth)
  {
    var keys' := keys[fold(members.name) := members.name];
    if PairAcross(fold, e, keys', members.tail, depth) {
      var b :| HasName(members.tail, b) && fold(b) in keys' && NamesPair(fold, e, keys'[fold(b)], b, depth);
      if fold(b) == fold(members.name) {
        assert HasBoth(members, members.name, b);
      } else {
        assert HasName(members, b);
      }
    } else if PairHere(fold, e, members.tail, depth) {
      var a, b :| HasBoth(members.tail, a, b) && NamesPair(fold, e, a, b, depth);
      assert HasBoth(members, a, b);
    } else {
      var ms, a, b, d: nat :|
        WithinMembersAt(ms, members.tail, d) && HasBoth(ms, a, b) && NamesPair(fold, e, a, b, depth + 1 + d);
      assert WithinMembersAt(ms, members, d);
    }
  }

  lemma PairInValue(fold: Key -> Key, e: Error, members: Members, depth: nat)
    requires members.MCons? && PairIn(fold, e, members.value, depth)
    ensures PairInMembers(fold, e, members, depth)
  {
    var ms, a, b, d: nat :|
      WithinAt(ms, members.value, d) && HasBoth(ms, a, b) && NamesPair(fold, e, a, b, depth + d);
    assert WithinMembersAt(ms, members, d);
  }

  lemma {:induction false} MembersSay(fold: Key -> Key, members: Members, keys: map<Key, Key>, depth: nat,
                                      tracked: nat)
    requires 0 < depth <= MAX_DEPTH && tracked <= MAX_KEYS && Filed(fold, keys)
    requires CheckMembers(fold, members, keys, depth, tracked).Some?
    ensures var e := CheckMembers(fold, members, keys, depth, tracked).value;
            Says(e, depth, MemberNesting(members), tracked, MemberPeak(members),
                 PairAmong(fold, e, keys, members, depth - 1))
    decreases members
  {
    var name, folded := members.name, fold(members.name);
    var e := CheckMembers(fold, members, keys, depth, tracked).value;
    if folded in keys {
      assert HasName(members, name) && NamesPair(fold, e, keys[folded], name, depth - 1);
    } else if tracked + 1 <= MAX_KEYS {
      if CheckValue(fold, members.value, depth, tracked + 1).Some? {
        ValueSays(fold, members.value, depth, tracked + 1);
        if PairIn(fold, e, members.value, depth) { PairInValue(fold, e, members, depth); }
      } else {
        MembersSay(fold, members.tail, keys[folded := name], depth, tracked + 1);
        if PairAmong(fold, e, keys[folded := name], members.tail, depth - 1) {
          PairInTail(fold, e, keys, members, depth - 1);
        }
      }
    }
  }

  /** What a refused value shows: no object; more after it; nesting or names past the cap; or two
      names of one object, at the depth given, the same name twice or two spellings of one fold. */
  lemma RefusalSays(fold: Key -> Key, j: Json, trailing: seq<Token>, e: Error)
    requires Scan(fold, Tokens(j) + trailing) == Err(e)
    ensures e == NotAnObject <==> !j.Object?
    ensures e == TrailingData ==> trailing != [] && Scan(fold, Tokens(j)) == Ok(())
    ensures e == TooDeep ==> Nesting(j) > MAX_DEPTH
    ensures e == TooManyNames ==> Peak(j) > MAX_KEYS
    ensures e.Duplicate? ==>
              exists ms, d: nat :: WithinAt(ms, j, d) && HasBoth(ms, e.name, e.name) && e.depth == d
    ensures e.CaseVariant? ==>
              && e.seen != e.name && fold(e.seen) == fold(e.name)
              && exists ms, d: nat :: WithinAt(ms, j, d) && HasBoth(ms, e.seen, e.name) && e.depth == d
    ensures e != Unparseable && e != Unexpected && e != NameNotString
  {
    ScanIsRecursive(fold, j, trailing);
    assert Tokens(j) + [] == Tokens(j);
    ScanIsRecursive(fold, j, []);
    if j.Object? && CheckMembers(fold, j.members, map[], 1, 0).Some? {
      MembersSay(fold, j.members, map[], 1, 0);
      PairLifts(fold, e, j, 0);
    }
  }

  // ----- every reader resolves the same members ------------------------------

  /** `members` is an object of the value, at any depth. */
  predicate Within(members: Members, j: Json) {
    match j
    case Array(items) => WithinItems(members, items)
    case Object(ms) => members == ms || WithinMembers(members, ms)
    case _ => false
  }

  predicate WithinItems(members: Members, items: Items) {
    match items
    case INil => false
    case ICons(head, tail) => Within(members, head) || WithinItems(members, tail)
  }

  predicate WithinMembers(members: Members, ms: Members) {
    match ms
    case MNil => false
    case MCons(_, value, tail) => Within(members, value) || WithinMembers(members, tail)
  }

  lemma {:induction false} CleanWithin(fold: Key -> Key, j: Json, members: Members)
    requires Clean(fold, j) && Within(members, j)
    ensures DistinctFolds(fold, members)
    decreases j
  {
    match j
    case Array(items) => CleanWithinItems(fold, items, members);
    case Object(ms) => if members != ms { CleanWithinMembers(fold, ms, members); }
  }

  lemma {:induction false} CleanWithinItems(fold: Key -> Key, items: Items, members: Members)
    requires CleanItems(fold, items) && WithinItems(members, items)
    ensures DistinctFolds(fold, members)
    decreases items
  {
    if Within(members, items.head) { CleanWithin(fold, items.head, members); }
    else { CleanWithinItems(fold, items.tail, members); }
  }

  lemma {:induction false} CleanWithinMembers(fold: Key -> Key, ms: Members, members: Members)
    requires CleanMembers(fold, ms) && WithinMembers(members, ms)
    ensures DistinctFolds(fold, members)
    decreases ms
  {
    if Within(members, ms.value) { CleanWithin(fold, ms.value, members); }
    else { CleanWithinMembers(fold, ms.tail, members); }
  }

  /** A parser's choice among the members whose name it takes for the wanted one. */
  function FirstMatch(members: Members, same: Key -> bool): Option<Json> {
    match members
    case MNil => None
    case MCons(name, value, tail) => if same(name) then Some(value) else FirstMatch(tail, same)
  }

  function LastMatch(members: Members, same: Key -> bool): Option<Json> {
    match members
    case MNil => None
    case MCons(name, value, tail) =>
      var later := LastMatch(tail, same);
      if later.Some? then later else if same(name) then Some(value) else None
  }

  function Exactly(want: Key): Key -> bool { k => k == want }

  function UpToFold(fold: Key -> Key, want: Key): Key -> bool { k => fold(k) == fold(want) }

  lemma {:induction false} NoMatch(fold: Key -> Key, members: Members, want: Key)
    ensures fold(want) !in FoldedNames(fold, members) ==>
              && FirstMatch(members, UpToFold(fold, want)).None? && LastMatch(members, UpToFold(fold, want)).None?
              && FirstMatch(members, Exactly(want)).None? && LastMatch(members, Exactly(want)).None?
    ensures FirstMatch(members, Exactly(want)).Some? || LastMatch(members, Exactly(want)).Some? ==>
              fold(want) in FoldedNames(fold, members)
  {
    if members.MCons? {
      NoMatch(fold, members.tail, want);
    }
  }

  /** Among members of distinct folds, readers that keep the first or the last occurrence, and
      that mind case or fold it, all find the member an exact lookup finds. */
  lemma {:induction false} OneReading(fold: Key -> Key, members: Members, want: Key)
    requires DistinctFolds(fold, members) && FirstMatch(members, Exactly(want)).Some?
    ensures FirstMatch(members, Exactly(want)) == LastMatch(members, Exactly(want))
         == FirstMatch(members, UpToFold(fold, want)) == LastMatch(members, UpToFold(fold, want))
  {
    NoMatch(fold, members.tail, want);
    if members.name != want {
      OneReading(fold, members.tail, want);
    }
  }

  /** What acceptance buys: in every object of an accepted body, however deep, every reader
      resolves a name that is there to the same member. */
  lemma ReadersAgree(fold: Key -> Key, j: Json, trailing: seq<Token>, members: Members, want: Key)
    requires Scan(fold, Tokens(j) + trailing) == Ok(())
    requires Within(members, j) && FirstMatch(members, Exactly(want)).Some?
    ensures FirstMatch(members, Exactly(want)) == LastMatch(members, Exactly(want))
         == FirstMatch(members, UpToFold(fold, want)) == LastMatch(members, UpToFold(fold, want))
  {
    AcceptsExactly(fold, j, trailing);
    CleanWithin(fold, j, members);
    OneReading(fold, members, want);
  }

  // ----- with the gate's own folding -----------------------------------------

  /** A reader that takes names for one when they agree rune by rune up to simple folding. */
  ghost predicate SameUpToOrbits(f: Rune -> Rune, a: Key, b: Key) {
    |a| == |b| && forall i :: 0 <= i < |a| ==> SameOrbit(f, a[i], b[i])
  }

  lemma {:induction false} SameMatches(members: Members, p: Key -> bool, q: Key -> bool)
    requires forall k :: p(k) == q(k)
    ensures FirstMatch(members, p) == FirstMatch(members, q) && LastMatch(members, p) == LastMatch(members, q)
  {
    if members.MCons? {
      SameMatches(members.tail, p, q);
    }
  }

  /** With names folded as the gate folds them, a reader that ignores case in the Unicode sense
      reads every object of an accepted body as an exact one does. */
  lemma CaseBlindReadersAgree(f: Rune -> Rune, period: Rune -> nat, j: Json, trailing: seq<Token>, members: Members,
                              want: Key, blind: Key -> bool)
    requires SimpleFolding(f, period)
    requires forall k :: blind(k) <==> SameUpToOrbits(f, k, want)
    requires Scan(k => FoldKey(f, period, k), Tokens(j) + trailing) == Ok(())
    requires Within(members, j) && FirstMatch(members, Exactly(want)).Some?
    ensures FirstMatch(members, blind) == LastMatch(members, blind)
         == FirstMatch(members, Exactly(want)) == LastMatch(members, Exactly(want))
  {
    var fold := k => FoldKey(f, period, k);
    ReadersAgree(fold, j, trailing, members, want);
    forall k: Key ensures blind(k) == UpToFold(fold, want)(k) {
      SameFoldedKey(f, period, k, want);
    }
    SameMatches(members, blind, UpToFold(fold, want));
  }
}

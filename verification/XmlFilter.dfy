/** Filtering a Charles session file in one pass over its XML tokens (cli/export.go:52-138). */
module XmlFilter {
  import opened Captures
  import opened Texts

  datatype Name = Name(space: string, local: string)

  datatype Attribute = Attribute(name: Name, value: string)

  /** Character data, comments, directives and processing instructions are all `Other`. */
  datatype Token = Start(name: Name, attributes: seq<Attribute>) | End(name: Name) | Other(text: string)

  datatype ExportFilter = ExportFilter(fromMS: int, toMS: int, clientIP: string)

  const TRANSACTION := "transaction"

  predicate Opens(t: Token) {
    t.Start? && t.name.local == TRANSACTION
  }

  predicate Closes(t: Token) {
    t.End? && t.name.local == TRANSACTION
  }

  // ----- which transactions match -----

  /** The last attribute of that local name. */
  function LastValue(attributes: seq<Attribute>, local: string): Option<string> {
    if attributes == [] then None
    else
      var last := attributes[|attributes| - 1];
      if last.name.local == local then Some(last.value) else LastValue(attributes[..|attributes| - 1], local)
  }

  predicate Matches(attributes: seq<Attribute>, filter: ExportFilter) {
    var time := match LastValue(attributes, "startTimeMillis") case None => 0 case Some(v) => ParseInt(v);
    var client := match LastValue(attributes, "clientAddress") case None => "" case Some(v) => v;
    && (filter.fromMS > 0 ==> time >= filter.fromMS)
    && (filter.toMS > 0 ==> time <= filter.toMS)
    && (filter.clientIP != "" ==> ClientAddressMatches(client, filter.clientIP))
  }

  method TransactionMatches(attributes: seq<Attribute>, filter: ExportFilter) returns (r: bool)
    ensures r == Matches(attributes, filter)
  {
    hide ParseInt;
    var startMS, client := 0, "";
    for i := 0 to |attributes|
      invariant startMS ==
        match LastValue(attributes[..i], "startTimeMillis") case None => 0 case Some(v) => ParseInt(v)
      invariant client == match LastValue(attributes[..i], "clientAddress") case None => "" case Some(v) => v
    {
      assert attributes[..i + 1][..i] == attributes[..i];
      match attributes[i].name.local {
        case "startTimeMillis" => startMS := ParseInt(attributes[i].value);
        case "clientAddress" => client := attributes[i].value;
        case _ =>
      }
    }
    assert attributes[..|attributes|] == attributes;
    if filter.fromMS > 0 && startMS < filter.fromMS {
      return false;
    }
    if filter.toMS > 0 && startMS > filter.toMS {
      return false;
    }
    if filter.clientIP != "" && !ClientAddressMatches(client, filter.clientIP) {
      return false;
    }
    return true;
  }

  /** A transaction that carries its start time in decimal is kept exactly when that time lies between
      the bounds that are set, and the client is the right one. */
  lemma MatchesTime(attributes: seq<Attribute>, filter: ExportFilter, ms: nat)
    requires LastValue(attributes, "startTimeMillis") == Some(Decimal(ms)) && ms < 0x8000_0000_0000_0000
    ensures
      var client := match LastValue(attributes, "clientAddress") case None => "" case Some(v) => v;
      Matches(attributes, filter) <==>
        && (filter.fromMS > 0 ==> filter.fromMS <= ms) && (filter.toMS > 0 ==> ms <= filter.toMS)
        && (filter.clientIP != "" ==> ClientAddressMatches(client, filter.clientIP))
  {
    DecimalReads(ms);
    DigitsRead(Decimal(ms));
    ParseIntMeans(Decimal(ms));
    hide ParseInt, Atoi, Digits, Decimal, LastValue, ClientAddressMatches;
  }

  // ----- documents as trees -----

  /** A list of sibling nodes. */
  datatype Forest =
    | Nil
    | Leaf(text: string, rest: Forest)
    | Element(name: Name, attributes: seq<Attribute>, children: Forest, rest: Forest)

  function Flatten(f: Forest): seq<Token> {
    match f
    case Nil => []
    case Leaf(text, rest) => [Other(text)] + Flatten(rest)
    case Element(name, attributes, children, rest) =>
      [Start(name, attributes)] + (Flatten(children) + ([End(name)] + Flatten(rest)))
  }

  /** The forest without its outermost transactions that do not match; nothing inside a transaction
      is looked at. */
  function Prune(f: Forest, filter: ExportFilter): Forest {
    match f
    case Nil => Nil
    case Leaf(text, rest) => Leaf(text, Prune(rest, filter))
    case Element(name, attributes, children, rest) =>
      if name.local != TRANSACTION then Element(name, attributes, Prune(children, filter), Prune(rest, filter))
      else if Matches(attributes, filter) then Element(name, attributes, children, Prune(rest, filter))
      else Prune(rest, filter)
  }

  /** How many outermost transactions match. */
  function OutermostMatching(f: Forest, filter: ExportFilter): nat {
    match f
    case Nil => 0
    case Leaf(_, rest) => OutermostMatching(rest, filter)
    case Element(name, attributes, children, rest) =>
      (if name.local != TRANSACTION then OutermostMatching(children, filter)
       else if Matches(attributes, filter) then 1 else 0) + OutermostMatching(rest, filter)
  }

  // ----- nesting -----

  /** The elements still open after `tokens`, innermost first; None at an end tag that does not close
      the innermost one. This is the check of the decoder and of an encoder alike. */
  function OpenAfter(tokens: seq<Token>, open: seq<Name>): Option<seq<Name>> {
    if tokens == [] then Some(open)
    else
      match tokens[0]
      case Start(name, _) => OpenAfter(tokens[1..], [name] + open)
      case End(name) => if open != [] && open[0] == name then OpenAfter(tokens[1..], open[1..]) else None
      case Other(_) => OpenAfter(tokens[1..], open)
  }

  predicate WellNested(tokens: seq<Token>) {
    OpenAfter(tokens, []) == Some([])
  }

  lemma {:induction false} FlattenKeepsOpen(f: Forest, more: seq<Token>, open: seq<Name>)
    ensures OpenAfter(Flatten(f) + more, open) == OpenAfter(more, open)
    decreases f
  {
    match f
    case Nil => assert Flatten(f) + more == more;
    case Leaf(text, rest) =>
      assert (Flatten(f) + more)[1..] == Flatten(rest) + more;
      FlattenKeepsOpen(rest, more, open);
    case Element(name, attributes, children, rest) =>
      var tail := [End(name)] + Flatten(rest);
      assert (Flatten(f) + more)[1..] == Flatten(children) + (tail + more);
      FlattenKeepsOpen(children, tail + more, [name] + open);
      assert (tail + more)[1..] == Flatten(rest) + more;
      assert ([name] + open)[1..] == open;
      FlattenKeepsOpen(rest, more, open);
  }

  lemma TreesAreWellNested(f: Forest)
    ensures WellNested(Flatten(f))
  {
    FlattenKeepsOpen(f, [], []);
    assert Flatten(f) + [] == Flatten(f);
  }

  /** Reads siblings up to the end tag that closes the enclosing element or the end of the tokens. */
  function Grow(tokens: seq<Token>): (r: (Forest, seq<Token>))
    ensures |r.1| <= |tokens|
    decreases |tokens|
  {
    if tokens == [] || tokens[0].End? then (Nil, tokens)
    else
      match tokens[0]
      case Other(text) =>
        var (rest, left) := Grow(tokens[1..]);
        (Leaf(text, rest), left)
      case Start(name, attributes) =>
        var (children, after) := Grow(tokens[1..]);
        if after == [] then (Nil, tokens)
        else
          var (rest, left) := Grow(after[1..]);
          (Element(name, attributes, children, rest), left)
  }

  lemma {:induction false} GrowReads(tokens: seq<Token>, open: seq<Name>)
    requires OpenAfter(tokens, open) == Some([])
    ensures
      var (f, left) := Grow(tokens);
      && tokens == Flatten(f) + left
      && OpenAfter(left, open) == Some([])
      && (if open == [] then left == [] else left != [] && left[0] == End(open[0]))
    decreases |tokens|
  {
    if tokens == [] || tokens[0].End? {
      assert tokens == Flatten(Nil) + tokens;
    } else {
      assert tokens == [tokens[0]] + tokens[1..];
      match tokens[0]
      case Other(text) =>
        GrowReads(tokens[1..], open);
        var (rest, left) := Grow(tokens[1..]);
        assert [Other(text)] + (Flatten(rest) + left) == Flatten(Leaf(text, rest)) + left;
      case Start(name, attributes) =>
        GrowReads(tokens[1..], [name] + open);
        var (children, after) := Grow(tokens[1..]);
        assert after == [End(name)] + after[1..] && ([name] + open)[1..] == open;
        GrowReads(after[1..], open);
        var (rest, left) := Grow(after[1..]);
        ElementReads(name, attributes, children, rest, left);
    }
  }

  lemma ElementReads(name: Name, attributes: seq<Attribute>, children: Forest, rest: Forest, left: seq<Token>)
    ensures [Start(name, attributes)] + (Flatten(children) + ([End(name)] + (Flatten(rest) + left)))
      == Flatten(Element(name, attributes, children, rest)) + left
  {
  }

  /** The well-nested token streams are exactly the flattened forests. */
  lemma WellNestedIffTree(tokens: seq<Token>)
    ensures WellNested(tokens) <==> exists f :: Flatten(f) == tokens
  {
    if WellNested(tokens) {
      GrowReads(tokens, []);
      var f := Grow(tokens).0;
      assert Flatten(f) + [] == Flatten(f);
    }
    forall f | Flatten(f) == tokens ensures WellNested(tokens) {
      TreesAreWellNested(f);
    }
  }

  // ----- filtering tokens with a depth counter -----

  function DepthAfter(t: Token, depth: nat): nat
    requires depth > 0
  {
    if Opens(t) then depth + 1 else if Closes(t) then depth - 1 else depth
  }

  /** How many tokens there are up to the one that brings the depth down to zero. */
  function BlockLength(tokens: seq<Token>, depth: nat): (n: nat)
    ensures n <= |tokens|
  {
    if depth == 0 || tokens == [] then 0
    else 1 + BlockLength(tokens[1..], DepthAfter(tokens[0], depth))
  }

  function Filtered(tokens: seq<Token>, filter: ExportFilter): seq<Token>
    decreases |tokens|
  {
    if tokens == [] then []
    else if Opens(tokens[0]) then
      var n := 1 + BlockLength(tokens[1..], 1);
      (if Matches(tokens[0].attributes, filter) then tokens[..n] else []) + Filtered(tokens[n..], filter)
    else [tokens[0]] + Filtered(tokens[1..], filter)
  }

  function KeptIn(tokens: seq<Token>, filter: ExportFilter): nat
    decreases |tokens|
  {
    if tokens == [] then 0
    else if Opens(tokens[0]) then
      var n := 1 + BlockLength(tokens[1..], 1);
      (if Matches(tokens[0].attributes, filter) then 1 else 0) + KeptIn(tokens[n..], filter)
    else KeptIn(tokens[1..], filter)
  }

  lemma BlockStep(tokens: seq<Token>, depth: nat)
    requires tokens != [] && depth > 0
    ensures BlockLength(tokens, depth)
      == 1 + BlockLength(tokens[1..], DepthAfter(tokens[0], depth))
  {
  }

  /** A whole forest inside a block leaves the depth where it was. */
  lemma {:induction false} BlockSkips(f: Forest, more: seq<Token>, depth: nat)
    requires depth > 0
    ensures BlockLength(Flatten(f) + more, depth) == |Flatten(f)| + BlockLength(more, depth)
    decreases f
  {
    hide BlockLength;
    match f
    case Nil => assert Flatten(f) + more == more;
    case Leaf(text, rest) =>
      BlockStep(Flatten(f) + more, depth);
      assert (Flatten(f) + more)[1..] == Flatten(rest) + more;
      BlockSkips(rest, more, depth);
    case Element(name, attributes, children, rest) =>
      var inner := if name.local == TRANSACTION then depth + 1 else depth;
      var tail := [End(name)] + Flatten(rest);
      BlockStep(Flatten(f) + more, depth);
      assert (Flatten(f) + more)[1..] == Flatten(children) + (tail + more);
      BlockSkips(children, tail + more, inner);
      BlockStep(tail + more, inner);
      assert (tail + more)[1..] == Flatten(rest) + more;
      BlockSkips(rest, more, depth);
  }

  /** A transaction's block is the whole element. */
  lemma BlockIsElement(name: Name, attributes: seq<Attribute>, children: Forest, more: seq<Token>)
    requires name.local == TRANSACTION
    ensures
      var block := [Start(name, attributes)] + Flatten(children) + [End(name)];
      && (block + more)[1..] == Flatten(children) + ([End(name)] + more)
      && 1 + BlockLength((block + more)[1..], 1) == |block|
  {
    BlockSkips(children, [End(name)] + more, 1);
    BlockStep([End(name)] + more, 1);
    assert ([End(name)] + more)[1..] == more;
    BlockDone(more);
    hide BlockLength, Flatten;
    WithoutFirst(Start(name, attributes), Flatten(children), [End(name)], more);
  }

  lemma WithoutFirst(first: Token, a: seq<Token>, b: seq<Token>, c: seq<Token>)
    ensures ([first] + a + b + c)[1..] == a + (b + c)
  {
  }

  lemma FilteredBlock(name: Name, attributes: seq<Attribute>, children: Forest, more: seq<Token>, filter: ExportFilter)
    requires name.local == TRANSACTION
    ensures
      var block := [Start(name, attributes)] + Flatten(children) + [End(name)];
      var keep := Matches(attributes, filter);
      && Filtered(block + more, filter) == (if keep then block else []) + Filtered(more, filter)
      && KeptIn(block + more, filter) == (if keep then 1 else 0) + KeptIn(more, filter)
  {
    hide Matches, BlockLength, Flatten;
    BlockIsElement(name, attributes, children, more);
    var block := [Start(name, attributes)] + Flatten(children) + [End(name)];
    assert (block + more)[..|block|] == block && (block + more)[|block|..] == more;
    assert (block + more)[0] == Start(name, attributes);
  }

  lemma FilteredToken(t: Token, more: seq<Token>, filter: ExportFilter)
    requires !Opens(t)
    ensures Filtered([t] + more, filter) == [t] + Filtered(more, filter)
    ensures KeptIn([t] + more, filter) == KeptIn(more, filter)
  {
    assert ([t] + more)[1..] == more;
  }

  /** Counting depth over the tokens does to a forest what pruning does to the tree. */
  lemma {:induction false} FilteredIsPruned(f: Forest, more: seq<Token>, filter: ExportFilter)
    ensures Filtered(Flatten(f) + more, filter) == Flatten(Prune(f, filter)) + Filtered(more, filter)
    ensures KeptIn(Flatten(f) + more, filter) == OutermostMatching(f, filter) + KeptIn(more, filter)
    decreases f
  {
    hide Matches, Filtered, KeptIn, BlockLength;
    match f
    case Nil => assert Flatten(f) + more == more;
    case Leaf(text, rest) =>
      FilteredToken(Other(text), Flatten(rest) + more, filter);
      assert Flatten(f) + more == [Other(text)] + (Flatten(rest) + more);
      FilteredIsPruned(rest, more, filter);
    case Element(name, attributes, children, rest) =>
      FilteredIsPruned(rest, more, filter);
      FilteredIsPruned(children, [End(name)] + (Flatten(rest) + more), filter);
      FilteredElement(name, attributes, children, rest, more, filter);
  }

  lemma FilteredElement(
    name: Name, attributes: seq<Attribute>, children: Forest, rest: Forest, more: seq<Token>, filter: ExportFilter)
    requires Filtered(Flatten(rest) + more, filter) == Flatten(Prune(rest, filter)) + Filtered(more, filter)
    requires KeptIn(Flatten(rest) + more, filter) == OutermostMatching(rest, filter) + KeptIn(more, filter)
    requires
      var after := [End(name)] + (Flatten(rest) + more);
      && Filtered(Flatten(children) + after, filter) == Flatten(Prune(children, filter)) + Filtered(after, filter)
      && KeptIn(Flatten(children) + after, filter) == OutermostMatching(children, filter) + KeptIn(after, filter)
    ensures
      var f := Element(name, attributes, children, rest);
      && Filtered(Flatten(f) + more, filter) == Flatten(Prune(f, filter)) + Filtered(more, filter)
      && KeptIn(Flatten(f) + more, filter) == OutermostMatching(f, filter) + KeptIn(more, filter)
  {
    hide Matches, Filtered, KeptIn, Flatten;
    var after := Flatten(rest) + more;
    ElementReads(name, attributes, children, rest, more);
    if name.local == TRANSACTION {
      var block := [Start(name, attributes)] + Flatten(children) + [End(name)];
      FilteredBlock(name, attributes, children, after, filter);
      ElementReads(name, attributes, children, Prune(rest, filter), Filtered(more, filter));
      assert block + after == [Start(name, attributes)] + (Flatten(children) + ([End(name)] + after));
      var out := Flatten(Prune(rest, filter)) + Filtered(more, filter);
      assert block + out == [Start(name, attributes)] + (Flatten(children) + ([End(name)] + out));
    } else {
      FilteredToken(Start(name, attributes), Flatten(children) + ([End(name)] + after), filter);
      FilteredToken(End(name), after, filter);
      ElementReads(name, attributes, Prune(children, filter), Prune(rest, filter), Filtered(more, filter));
    }
  }

  /** Filtering a second time changes nothing. */
  lemma {:induction false} PruneTwice(f: Forest, filter: ExportFilter)
    ensures Prune(Prune(f, filter), filter) == Prune(f, filter)
    ensures OutermostMatching(Prune(f, filter), filter) == OutermostMatching(f, filter)
    decreases f
  {
    hide Matches;
    match f
    case Nil =>
    case Leaf(_, rest) => PruneTwice(rest, filter);
    case Element(_, _, children, rest) =>
      PruneTwice(children, filter);
      PruneTwice(rest, filter);
  }

  // ----- the encoders -----

  class Buffer {
    var contents: seq<Token>

    constructor ()
      ensures contents == []
    {
      contents := [];
    }
  }

  /** What an encoder accepts, apart from nesting. */
  type Writable = Token -> bool

  /** An encoder in front of a buffer. What it has encoded may wait in `pending`, and it decides itself
      when to pass some of it on, until it is flushed. */
  class Encoder {
    const sink: Buffer
    const writable: Writable
    var pending: seq<Token>
    var open: seq<Name>

    constructor (sink: Buffer, writable: Writable)
      ensures this.sink == sink && this.writable == writable && pending == [] && open == []
    {
      this.sink := sink;
      this.writable := writable;
      pending, open := [], [];
    }

    ghost function Produced(): seq<Token>
      reads this, sink
    {
      sink.contents + pending
    }

    method EncodeToken(t: Token) returns (ok: bool)
      modifies this, sink
      ensures ok <==> writable(t) && OpenAfter([t], old(open)).Some?
      ensures ok ==> Produced() == old(Produced()) + [t] && Some(open) == OpenAfter([t], old(open))
    {
      assert [t][1..] == [];
      if t.Start? {
        open := [t.name] + open;
      } else if t.End? {
        if open == [] || open[0] != t.name {
          return false;
        }
        open := open[1..];
      }
      if !writable(t) {
        return false;
      }
      ghost var before := Produced();
      pending := pending + [t];
      assert Produced() == before + [t];
      if * {
        Flush();
      }
      ok := true;
    }

    method Flush()
      modifies this`pending, sink
      ensures pending == [] && sink.contents == old(Produced())
    {
      sink.contents := sink.contents + pending;
      pending := [];
    }
  }

  // ----- the filter itself -----

  datatype Ending = EndOfInput | DecodingError

  datatype Outcome = Written(output: seq<Token>, kept: nat) | Aborted

  lemma OneMore(tokens: seq<Token>, open: seq<Name>)
    requires tokens != [] && OpenAfter(tokens, open).Some?
    ensures OpenAfter([tokens[0]], open).Some?
    ensures OpenAfter(tokens, open) == OpenAfter(tokens[1..], OpenAfter([tokens[0]], open).value)
  {
    assert [tokens[0]][1..] == [];
  }

  function Transactions(open: seq<Name>): nat {
    if open == [] then 0 else (if open[0].local == TRANSACTION then 1 else 0) + Transactions(open[1..])
  }

  /** Inside a block the open elements are those of the block encoder in front of those of the main
      one, and a step of the first is a step of the whole. */
  lemma InnerStep(t: Token, inner: seq<Name>, outer: seq<Name>, first: Name)
    requires inner != [] && inner[|inner| - 1] == first && OpenAfter([t], inner + outer).Some?
    ensures OpenAfter([t], inner).Some?
    ensures
      var next := OpenAfter([t], inner).value;
      && OpenAfter([t], inner + outer) == Some(next + outer)
      && Transactions(next) == Transactions(inner) + (if Opens(t) then 1 else 0) - (if Closes(t) then 1 else 0)
      && (next == [] || next[|next| - 1] == first)
  {
    assert [t][1..] == [];
    if t.Start? {
      assert [t.name] + (inner + outer) == ([t.name] + inner) + outer;
      assert ([t.name] + inner)[1..] == inner;
    } else if t.End? {
      assert (inner + outer)[1..] == inner[1..] + outer;
    }
  }

  lemma {:induction false} FirstCounts(open: seq<Name>)
    requires open != [] && open[|open| - 1].local == TRANSACTION
    ensures Transactions(open) > 0
    decreases |open|
  {
    if |open| > 1 {
      FirstCounts(open[1..]);
    }
  }

  /** Inside a block of a well-nested stream: `rest` is still to come, the block's encoder has `inner` open,
      the outermost of them the transaction itself, and the depth counts the transactions among them. */
  predicate InBlock(rest: seq<Token>, inner: seq<Name>, outer: seq<Name>, depth: nat) {
    && OpenAfter(rest, inner + outer) == Some([])
    && Transactions(inner) == depth
    && (inner == [] || inner[|inner| - 1].local == TRANSACTION)
  }

  lemma BlockBegins(tokens: seq<Token>, outer: seq<Name>)
    requires tokens != [] && Opens(tokens[0])
    ensures OpenAfter([tokens[0]], []) == Some([tokens[0].name])
    ensures OpenAfter(tokens, outer) == Some([]) ==> InBlock(tokens[1..], [tokens[0].name], outer, 1)
  {
    StartsBlock(tokens[0], outer);
    if OpenAfter(tokens, outer) == Some([]) {
      OneMore(tokens, outer);
    }
    hide OpenAfter, Transactions;
  }

  lemma BlockTurn(rest: seq<Token>, inner: seq<Name>, outer: seq<Name>, depth: nat)
    requires InBlock(rest, inner, outer, depth) && depth > 0 && rest != []
    ensures OpenAfter([rest[0]], inner).Some?
    ensures InBlock(rest[1..], OpenAfter([rest[0]], inner).value, outer, DepthAfter(rest[0], depth))
  {
    hide OpenAfter, Transactions;
    NoTransactions();
    OneMore(rest, inner + outer);
    InnerStep(rest[0], inner, outer, inner[|inner| - 1]);
  }

  lemma BlockGoesOn(rest: seq<Token>, inner: seq<Name>, outer: seq<Name>, depth: nat)
    requires InBlock(rest, inner, outer, depth) && depth > 0
    ensures rest != []
  {
    if rest == [] {
      NothingOpen(inner + outer);
      NoTransactions();
    }
  }

  lemma BlockEnds(rest: seq<Token>, inner: seq<Name>, outer: seq<Name>)
    requires InBlock(rest, inner, outer, 0)
    ensures OpenAfter(rest, outer) == Some([])
  {
    hide OpenAfter;
    if inner != [] {
      FirstCounts(inner);
    }
    assert inner + outer == outer;
  }

  /** Copies one block into a fresh buffer. `next` is where the main loop goes on. */
  method CopyBlock(
    tokens: seq<Token>, start: nat, writable: Writable, ghost outer: seq<Name>)
    returns (ok: bool, block: seq<Token>, next: nat)
    requires start < |tokens| && Opens(tokens[start])
    ensures ok ==> next == start + 1 + BlockLength(tokens[start + 1..], 1) && block == tokens[start..next]
    ensures ok ==> start < next <= |tokens| && forall k | start <= k < next :: writable(tokens[k])
    ensures OpenAfter(tokens[start..], outer) == Some([]) ==>
      && (ok <==> forall k | start <= k < start + 1 + BlockLength(tokens[start + 1..], 1) :: writable(tokens[k]))
      && (ok ==> OpenAfter(tokens[next..], outer) == Some([]))
  {
    hide BlockLength, OpenAfter, InBlock, DepthAfter;
    block, next := [], start + 1;
    var buffer := new Buffer();
    var encoder := new Encoder(buffer, writable);
    assert tokens[start..][1..] == tokens[start + 1..];
    ghost var sound := OpenAfter(tokens[start..], outer) == Some([]);
    BlockBegins(tokens[start..], outer);
    ok := encoder.EncodeToken(tokens[start]);
    if !ok {
      return;
    }
    var depth := 1;
    assert tokens[start..next] == [tokens[start]];
    while depth > 0
      invariant start < next <= |tokens|
      invariant encoder.sink == buffer && encoder.writable == writable
      invariant fresh(encoder) && fresh(buffer)
      invariant encoder.Produced() == tokens[start..next]
      invariant forall k | start <= k < next :: writable(tokens[k])
      invariant depth >= 0
      invariant BlockLength(tokens[start + 1..], 1) == next - start - 1 + BlockLength(tokens[next..], depth)
      invariant sound ==> InBlock(tokens[next..], encoder.open, outer, depth)
      decreases |tokens| - next
    {
      if next == |tokens| {
        if sound {
          BlockGoesOn(tokens[next..], encoder.open, outer, depth);
        }
        ok := false;
        return;
      }
      var nested := tokens[next];
      BlockStep(tokens[next..], depth);
      assert tokens[next..][1..] == tokens[next + 1..];
      if sound {
        BlockTurn(tokens[next..], encoder.open, outer, depth);
      }
      depth := DepthAfter(nested, depth);
      assert tokens[start..next + 1] == tokens[start..next] + [nested];
      ok := encoder.EncodeToken(nested);
      if !ok {
        return;
      }
      next := next + 1;
    }
    BlockDone(tokens[next..]);
    if sound {
      BlockEnds(tokens[next..], encoder.open, outer);
    }
    encoder.Flush();
    block := buffer.contents;
  }

  lemma StartsBlock(t: Token, outer: seq<Name>)
    requires Opens(t)
    ensures OpenAfter([t], []) == Some([t.name]) && OpenAfter([t], outer) == Some([t.name] + outer)
    ensures Transactions([t.name]) == 1
  {
    assert [t][1..] == [] && [t.name] + [] == [t.name] && [t.name][1..] == [];
  }

  lemma NothingOpen(open: seq<Name>)
    requires OpenAfter([], open) == Some([])
    ensures open == []
  {
  }

  lemma NoTransactions()
    ensures Transactions([]) == 0
  {
  }

  lemma BlockDone(tokens: seq<Token>)
    ensures BlockLength(tokens, 0) == 0
  {
  }

  lemma FilterStep(tokens: seq<Token>, filter: ExportFilter)
    requires tokens != []
    ensures
      var n := if Opens(tokens[0]) then 1 + BlockLength(tokens[1..], 1) else 1;
      var keep := Opens(tokens[0]) && Matches(tokens[0].attributes, filter);
      && n <= |tokens|
      && Filtered(tokens, filter) == (if keep || !Opens(tokens[0]) then tokens[..n] else [])
         + Filtered(tokens[n..], filter)
      && KeptIn(tokens, filter) == (if keep then 1 else 0) + KeptIn(tokens[n..], filter)
  {
    hide Matches, BlockLength;
    assert tokens[..1] == [tokens[0]];
  }

  lemma NothingFiltered(filter: ExportFilter)
    ensures Filtered([], filter) == [] && KeptIn([], filter) == 0
  {
  }

  /** What is done of the filtering when the first i tokens are behind. */
  predicate DoneSoFar(tokens: seq<Token>, i: nat, filter: ExportFilter, done: seq<Token>, kept: nat)
    requires i <= |tokens|
  {
    && done + Filtered(tokens[i..], filter) == Filtered(tokens, filter)
    && kept + KeptIn(tokens[i..], filter) == KeptIn(tokens, filter)
  }

  lemma DoneAtFirst(tokens: seq<Token>, filter: ExportFilter)
    ensures DoneSoFar(tokens, 0, filter, [], 0)
  {
    hide Filtered, KeptIn;
    assert tokens[0..] == tokens && [] + Filtered(tokens, filter) == Filtered(tokens, filter);
  }

  lemma DoneToken(tokens: seq<Token>, i: nat, filter: ExportFilter, done: seq<Token>, kept: nat)
    requires i < |tokens| && !Opens(tokens[i]) && DoneSoFar(tokens, i, filter, done, kept)
    ensures DoneSoFar(tokens, i + 1, filter, done + [tokens[i]], kept)
  {
    FilterStep(tokens[i..], filter);
    hide Filtered, KeptIn;
    assert tokens[i..][..1] == [tokens[i]] && tokens[i..][1..] == tokens[i + 1..];
    assert done + ([tokens[i]] + Filtered(tokens[i + 1..], filter)) == done + [tokens[i]]
      + Filtered(tokens[i + 1..], filter);
  }

  /** Taking from what lies behind i. */
  lemma Behind(tokens: seq<Token>, i: nat, next: nat)
    requires i < next <= |tokens|
    ensures tokens[i..][1..] == tokens[i + 1..]
    ensures tokens[i..][..next - i] == tokens[i..next] && tokens[i..][next - i..] == tokens[next..]
  {
  }

  lemma Joined(a: seq<Token>, b: seq<Token>, c: seq<Token>)
    ensures a + (b + c) == a + b + c && a + ([] + c) == a + c
  {
  }

  lemma DoneBlock(tokens: seq<Token>, i: nat, next: nat, filter: ExportFilter, done: seq<Token>, kept: nat)
    requires i < |tokens| && Opens(tokens[i]) && DoneSoFar(tokens, i, filter, done, kept)
    requires next == i + 1 + BlockLength(tokens[i + 1..], 1) <= |tokens|
    ensures Matches(tokens[i].attributes, filter) ==> DoneSoFar(tokens, next, filter, done + tokens[i..next], kept + 1)
    ensures !Matches(tokens[i].attributes, filter) ==> DoneSoFar(tokens, next, filter, done, kept)
  {
    FilterStep(tokens[i..], filter);
    hide Filtered, KeptIn, BlockLength, Matches;
    Behind(tokens, i, next);
    Joined(done, tokens[i..next], Filtered(tokens[next..], filter));
  }

  lemma AllDone(tokens: seq<Token>, filter: ExportFilter, done: seq<Token>, kept: nat)
    requires DoneSoFar(tokens, |tokens|, filter, done, kept)
    ensures done == Filtered(tokens, filter) && kept == KeptIn(tokens, filter)
  {
    NothingFiltered(filter);
    assert tokens[|tokens|..] == [];
  }

  /** The decoder ends without an error only on a well-nested stream. The run writes a result exactly
      when there was no decoding error and every token can be encoded, and the result is the document
      without its outermost transactions that do not match. */
  method FilterXML(tokens: seq<Token>, ending: Ending, filter: ExportFilter, writable: Writable) returns (r: Outcome)
    requires ending == EndOfInput ==> WellNested(tokens)
    ensures r.Written? <==> ending == EndOfInput && forall t | t in tokens :: writable(t)
    ensures r.Written? ==> r == Written(Filtered(tokens, filter), KeptIn(tokens, filter))
  {
    hide BlockLength, OpenAfter, Filtered, KeptIn, Matches, DoneSoFar;
    var buffer := new Buffer();
    var encoder := new Encoder(buffer, writable);
    var kept, i := 0, 0;
    ghost var sound := ending == EndOfInput;
    assert tokens[0..] == tokens;
    DoneAtFirst(tokens, filter);
    assert encoder.Produced() == [];
    while i < |tokens|
      invariant 0 <= i <= |tokens|
      invariant encoder.sink == buffer && encoder.writable == writable && fresh(encoder) && fresh(buffer)
      invariant DoneSoFar(tokens, i, filter, encoder.Produced(), kept)
      invariant forall k | 0 <= k < i :: writable(tokens[k])
      invariant sound ==> OpenAfter(tokens[i..], encoder.open) == Some([])
    {
      if !Opens(tokens[i]) {
        if sound {
          assert tokens[i..][1..] == tokens[i + 1..];
          OneMore(tokens[i..], encoder.open);
        }
        DoneToken(tokens, i, filter, encoder.Produced(), kept);
        var ok := encoder.EncodeToken(tokens[i]);
        if !ok {
          return Aborted;
        }
        i := i + 1;
      } else {
        var ok, block, next := CopyBlock(tokens, i, writable, encoder.open);
        if !ok {
          return Aborted;
        }
        DoneBlock(tokens, i, next, filter, encoder.Produced(), kept);
        var matched := TransactionMatches(tokens[i].attributes, filter);
        if matched {
          encoder.Flush();
          buffer.contents := buffer.contents + block;
          assert encoder.Produced() == buffer.contents;
          kept := kept + 1;
        }
        i := next;
      }
    }
    if ending == DecodingError {
      return Aborted;
    }
    AllDone(tokens, filter, encoder.Produced(), kept);
    encoder.Flush();
    r := Written(buffer.contents, kept);
  }

  /** The output is the pruned tree, and the count is that of its outermost transactions. */
  lemma FilterIsPruning(f: Forest, filter: ExportFilter)
    ensures WellNested(Flatten(f))
    ensures Filtered(Flatten(f), filter) == Flatten(Prune(f, filter))
    ensures KeptIn(Flatten(f), filter) == OutermostMatching(f, filter)
  {
    TreesAreWellNested(f);
    FilteredIsPruned(f, [], filter);
    assert Flatten(f) + [] == Flatten(f);
    NothingFiltered(filter);
  }
}

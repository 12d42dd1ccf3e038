/**
 Chunking a conversation (chunk_messages in memory_core/chunking.py): consecutive messages are packed up to the
 budget, and a message over the budget on its own is prose-chunked, each piece rendered with the role in front.
 */
module MessageChunks {
  import opened Options
  import opened Tokeniser
  import opened Segments
  import opened Chunking

  const COLON: Ch := Ch(':', Mark)
  const UNKNOWN: Text := [
    Ch('u', Word), Ch('n', Word), Ch('k', Word), Ch('n', Word), Ch('o', Word), Ch('w', Word), Ch('n', Word)]

  /** Absent fields are empty. */
  datatype Message = Message(role: Text, text: Text, id: Text)

  datatype MessageChunk = MessageChunk(text: Text, roles: seq<Text>, ids: seq<Text>)

  function RoleOf(m: Message): Text {
    if Strip(m.role) == [] then UNKNOWN else Strip(m.role)
  }

  function RenderMessage(role: Text, text: Text): Text {
    Strip(role + [COLON, BLANK] + text)
  }

  /** The messages with any text, their role and text cleaned up. */
  function Kept(messages: seq<Message>): seq<Message> {
    if messages == [] then []
    else
      var m, sofar := messages[|messages| - 1], Kept(messages[..|messages| - 1]);
      if Strip(m.text) == [] then sofar else sofar + [Message(RoleOf(m), Strip(m.text), m.id)]
  }

  function Rendered(m: Message): Text {
    RenderMessage(m.role, m.text)
  }

  // ---- rendering and token counts ----

  lemma {:induction false} StripNoop(s: Text)
    requires IsStripped(s)
    ensures Strip(s) == s
  {
  }

  predicate IsClean(s: Text) { s != [] && IsStripped(s) }

  /** A rendered message costs its role with the colon, and its text. */
  lemma RenderedTokens(role: Text, text: Text)
    requires IsClean(role) && IsClean(text)
    ensures RenderMessage(role, text) == role + [COLON, BLANK] + text
    ensures EstimateTokens(RenderMessage(role, text)) == EstimateTokens(role + [COLON]) + EstimateTokens(text)
  {
    var r := role + [COLON, BLANK] + text;
    StripNoop(r);
    assert r == (role + [COLON]) + [BLANK] + text;
    EstimateOverSpace(role + [COLON], BLANK, text);
  }

  /** `"\n\n".join(parts)` */
  function JoinBlocks(parts: seq<Text>): Text {
    if parts == [] then []
    else if |parts| == 1 then parts[0]
    else JoinBlocks(parts[..|parts| - 1]) + [NEWLINE] + ([NEWLINE] + parts[|parts| - 1])
  }

  lemma {:induction false} BlocksEstimate(parts: seq<Text>)
    ensures EstimateTokens(JoinBlocks(parts)) == SumTokens(parts)
  {
    if |parts| == 1 {
      assert parts[..0] == [] && SumTokens([]) == 0;
    } else if parts != [] {
      var k := |parts| - 1;
      BlocksEstimate(parts[..k]);
      EstimateOverSpace(JoinBlocks(parts[..k]), NEWLINE, [NEWLINE] + parts[k]);
      assert ([NEWLINE] + parts[k])[1..] == parts[k];
      assert EstimateTokens([NEWLINE] + parts[k]) == EstimateTokens(parts[k]);
    }
  }

  // ---- groups of messages ----

  /** What a stretch of the conversation becomes: one packed chunk, or the pieces of one oversized message. */
  datatype Group = Packed(start: nat, end: nat) | Split(index: nat)

  function EndOf(g: Group): nat { if g.Packed? then g.end else g.index + 1 }

  function StartOf(g: Group): nat { if g.Packed? then g.start else g.index }

  function RenderedRange(kept: seq<Message>, i: nat, j: nat): seq<Text>
    requires i <= j <= |kept|
    decreases j - i
  {
    if i == j then [] else RenderedRange(kept, i, j - 1) + [Rendered(kept[j - 1])]
  }

  /** Roles in order of first appearance. */
  function RolesOf(kept: seq<Message>, i: nat, j: nat): seq<Text>
    requires i <= j <= |kept|
    decreases j - i
  {
    if i == j then []
    else
      var sofar := RolesOf(kept, i, j - 1);
      if kept[j - 1].role in sofar then sofar else sofar + [kept[j - 1].role]
  }

  function IdsOf(kept: seq<Message>, i: nat, j: nat): seq<Text>
    requires i <= j <= |kept|
    decreases j - i
  {
    if i == j then []
    else if kept[j - 1].id == [] then IdsOf(kept, i, j - 1) else IdsOf(kept, i, j - 1) + [kept[j - 1].id]
  }

  function PieceChunks(m: Message, pieces: seq<Text>): seq<MessageChunk> {
    if pieces == [] then []
    else
      PieceChunks(m, pieces[..|pieces| - 1])
      + [MessageChunk(RenderMessage(m.role, pieces[|pieces| - 1]), [m.role], if m.id == [] then [] else [m.id])]
  }

  /** What `chunk_prose` makes of a text under the default overlap ratio. */
  function Prose(text: Text, target: nat): seq<Text>
    requires target > 0
  {
    ProseChunks(text, target, DefaultOverlap(target))
  }

  function ChunksOf(kept: seq<Message>, target: nat, g: Group): seq<MessageChunk>
    requires target > 0 && StartOf(g) < EndOf(g) <= |kept|
  {
    match g
    case Packed(i, j) => [MessageChunk(JoinBlocks(RenderedRange(kept, i, j)), RolesOf(kept, i, j), IdsOf(kept, i, j))]
    case Split(i) => PieceChunks(kept[i], Prose(kept[i].text, target))
  }

  function DefaultOverlap(target: nat): int {
    Truncate(target as real * 0.15)
  }

  /** A message that has to be split: its rendering alone exceeds the target. */
  predicate Overlong(m: Message, target: int) {
    EstimateTokens(Rendered(m)) > target
  }

  /** Messages are packed while they fit; a message is split only when it alone exceeds the budget. */
  ghost predicate GroupOk(kept: seq<Message>, target: nat, g: Group) {
    && StartOf(g) < EndOf(g) <= |kept|
    && match g {
         case Packed(i, j) => SumTokens(RenderedRange(kept, i, j)) <= target
         case Split(i) => Overlong(kept[i], target)
       }
  }

  /** A packed group ends only before a message that would not fit. */
  ghost predicate GroupFull(kept: seq<Message>, target: nat, g: Group) {
    g.Packed? && StartOf(g) < g.end < |kept| ==>
      SumTokens(RenderedRange(kept, g.start, g.end)) + EstimateTokens(Rendered(kept[g.end])) > target
  }

  ghost predicate InOrder(groups: seq<Group>, upTo: nat) {
    && (groups == [] ==> upTo == 0)
    && (groups != [] ==> StartOf(groups[0]) == 0 && EndOf(groups[|groups| - 1]) == upTo)
    && forall k :: 0 <= k < |groups| - 1 ==> EndOf(groups[k]) == StartOf(groups[k + 1])
  }

  function Output(kept: seq<Message>, target: nat, groups: seq<Group>): seq<MessageChunk>
    requires target > 0 && forall k :: 0 <= k < |groups| ==> StartOf(groups[k]) < EndOf(groups[k]) <= |kept|
  {
    if groups == [] then []
    else Output(kept, target, groups[..|groups| - 1]) + ChunksOf(kept, target, groups[|groups| - 1])
  }

  ghost predicate Grouped(kept: seq<Message>, target: nat, groups: seq<Group>, upTo: nat, out: seq<MessageChunk>) {
    && (forall k :: 0 <= k < |groups| ==> GroupOk(kept, target, groups[k]) && GroupFull(kept, target, groups[k]))
    && InOrder(groups, upTo)
    && target > 0 && out == Output(kept, target, groups)
  }

  lemma GroupedExtends(kept: seq<Message>, target: nat, groups: seq<Group>, upTo: nat, out: seq<MessageChunk>, g: Group)
    requires Grouped(kept, target, groups, upTo, out) && GroupOk(kept, target, g) && GroupFull(kept, target, g) && StartOf(g) == upTo
    ensures Grouped(kept, target, groups + [g], EndOf(g), out + ChunksOf(kept, target, g))
  {
    hide ChunksOf, RenderedRange, Rendered, SumTokens, EstimateTokens;
    var more := groups + [g];
    assert more[..|groups|] == groups;
    InOrderExtends(groups, upTo, g);
    forall k | 0 <= k < |more| ensures GroupOk(kept, target, more[k]) && GroupFull(kept, target, more[k]) {
      if k < |groups| {
        assert more[k] == groups[k];
      }
    }
  }

  lemma InOrderExtends(groups: seq<Group>, upTo: nat, g: Group)
    requires InOrder(groups, upTo) && StartOf(g) == upTo
    ensures InOrder(groups + [g], EndOf(g))
  {
    hide StartOf, EndOf;
    var more := groups + [g];
    forall k | 0 <= k < |more| - 1 ensures EndOf(more[k]) == StartOf(more[k + 1]) {
      if k + 1 < |groups| {
        assert EndOf(groups[k]) == StartOf(groups[k + 1]);
      }
    }
  }

  lemma {:induction false} KeptAreClean(messages: seq<Message>)
    ensures forall m :: m in Kept(messages) ==> IsClean(m.role) && IsClean(m.text)
  {
    if messages != [] {
      var m := messages[|messages| - 1];
      KeptAreClean(messages[..|messages| - 1]);
      StripKeeps(m.role);
      StripKeeps(m.text);
    }
  }

  /** The chunks of one oversized message. */
  method SplitMessage(m: Message, target: int) returns (chunks: Option<seq<MessageChunk>>)
    requires IsClean(m.text)
    ensures chunks == if target > 0 then Some(PieceChunks(m, Prose(m.text, target))) else if target == 0 then None else Some([])
  {
    hide RenderMessage, ProseChunks, EstimateTokens, Truncate, Squeeze, Tokens;
    var pieces := ChunkProse(m.text, target, 0.15);
    ContentAndTokens(m.text);
    if pieces.None? {
      return None;
    }
    var prose := pieces.value;
    var made: seq<MessageChunk> := [];
    for k := 0 to |prose|
      invariant made == PieceChunks(m, prose[..k])
    {
      assert prose[..k + 1][..k] == prose[..k];
      made := made + [MessageChunk(RenderMessage(m.role, prose[k]), [m.role], if m.id == [] then [] else [m.id])];
    }
    assert prose[..|prose|] == prose;
    chunks := Some(made);
  }

  /** The pack being built: the messages `start .. i`, rendered, with their roles and ids. */
  datatype Pack = Pack(start: nat, parts: seq<Text>, roles: seq<Text>, ids: seq<Text>, tokens: nat)

  ghost predicate IsPack(kept: seq<Message>, target: nat, pack: Pack, i: nat) {
    && pack.start <= i <= |kept|
    && pack.parts == RenderedRange(kept, pack.start, i) && |pack.parts| == i - pack.start
    && pack.roles == RolesOf(kept, pack.start, i) && pack.ids == IdsOf(kept, pack.start, i)
    && pack.tokens == SumTokens(pack.parts) <= target
  }

  /** Emit the pack if there is one; it is only flushed at the end or before a message that does not fit. */
  method Flush(ghost kept: seq<Message>, target: nat, ghost groups: seq<Group>, out: seq<MessageChunk>, pack: Pack, i: nat)
      returns (ghost groups': seq<Group>, out': seq<MessageChunk>, empty: Pack)
    requires target > 0 && IsPack(kept, target, pack, i) && Grouped(kept, target, groups, pack.start, out)
    requires pack.parts != [] && i < |kept| ==> pack.tokens + EstimateTokens(Rendered(kept[i])) > target
    ensures Grouped(kept, target, groups', i, out') && IsPack(kept, target, empty, i) && empty.parts == [] && empty.start == i
  {
    groups', out' := groups, out;
    hide Grouped, GroupOk, GroupFull, JoinBlocks, SumTokens, EstimateTokens, RenderMessage;
    if pack.parts != [] {
      ghost var g := Packed(pack.start, i);
      PackedOk(kept, target, g);
      GroupedExtends(kept, target, groups, pack.start, out, g);
      out' := out + [MessageChunk(JoinBlocks(pack.parts), pack.roles, pack.ids)];
      groups' := groups + [g];
    }
    empty := Pack(i, [], [], [], 0);
    SumOfNone();
  }

  lemma AddSplit(kept: seq<Message>, target: nat, groups: seq<Group>, out: seq<MessageChunk>, i: nat)
    requires target > 0 && i < |kept| && Overlong(kept[i], target) && Grouped(kept, target, groups, i, out)
    ensures Grouped(kept, target, groups + [Split(i)], i + 1, out + PieceChunks(kept[i], Prose(kept[i].text, target)))
  {
    hide Grouped, Overlong, PieceChunks, Prose;
    SplitOk(kept, target, i);
    GroupedExtends(kept, target, groups, i, out, Split(i));
  }

  method AddMessage(kept: seq<Message>, target: nat, pack: Pack, i: nat) returns (longer: Pack)
    requires IsPack(kept, target, pack, i) && i < |kept| && pack.tokens + EstimateTokens(Rendered(kept[i])) <= target
    ensures IsPack(kept, target, longer, i + 1) && longer.start == pack.start
  {
    var m, rendered := kept[i], Rendered(kept[i]);
    PartsGrow(pack.parts, rendered);
    longer := Pack(pack.start, pack.parts + [rendered],
                   if m.role in pack.roles then pack.roles else pack.roles + [m.role],
                   if m.id == [] then pack.ids else pack.ids + [m.id],
                   pack.tokens + EstimateTokens(rendered));
  }

  /** `out` is the chunks of a grouping of the messages that have text. */
  ghost predicate IsChunking(messages: seq<Message>, target: nat, out: seq<MessageChunk>) {
    exists groups :: Grouped(Kept(messages), target, groups, |Kept(messages)|, out)
  }

  /** The conversation, grouped in order. Without room, any text at all is an error at zero and vanishes below. */
  method ChunkMessages(messages: seq<Message>, target: int) returns (out: Option<seq<MessageChunk>>)
    ensures target > 0 ==> out.Some? && IsChunking(messages, target, out.value)
    ensures target <= 0 ==> out == if target == 0 && Kept(messages) != [] then None else Some([])
  {
    hide *;
    var kept := CleanMessages(messages);
    KeptAreClean(messages);
    if target > 0 {
      var chunks := PackMessages(messages, kept, target);
      return Some(chunks);
    }
    for i := 0 to |kept|
      invariant target == 0 ==> i == 0
    {
      assert kept[i] in kept;
      CleanHasToken(kept[i].text);
      RenderedTokens(kept[i].role, kept[i].text);
      var none := SplitMessage(kept[i], target);
      if none.None? {
        return None;
      }
    }
    out := Some([]);
  }

  /** The packing loop for a positive target. */
  method PackMessages(ghost messages: seq<Message>, kept: seq<Message>, target: nat) returns (out: seq<MessageChunk>)
    requires target > 0 && kept == Kept(messages) && forall m :: m in kept ==> IsClean(m.role) && IsClean(m.text)
    ensures IsChunking(messages, target, out)
  {
    hide *;
    out := [];
    ghost var groups: seq<Group> := [];
    NothingYet(kept, target);
    var pack := EmptyPack(kept, target, 0);
    for i := 0 to |kept|
      invariant IsPack(kept, target, pack, i) && Grouped(kept, target, groups, pack.start, out)
    {
      var tokens := EstimateTokens(Rendered(kept[i]));
      if tokens > target {
        groups, out, pack := Flush(kept, target, groups, out, pack, i);
        assert kept[i] in kept;
        var chunks := SplitMessage(kept[i], target);
        IsOverlong(kept[i], target);
        AddSplit(kept, target, groups, out, i);
        groups, out := groups + [Split(i)], out + chunks.value;
        pack := EmptyPack(kept, target, i + 1);
        continue;
      }
      if pack.parts != [] && pack.tokens + tokens > target {
        groups, out, pack := Flush(kept, target, groups, out, pack, i);
      }
      PackFits(kept, target, pack, i);
      pack := AddMessage(kept, target, pack, i);
    }
    groups, out, pack := Flush(kept, target, groups, out, pack, |kept|);
    GroupedIsChunking(messages, target, groups, out);
  }

  lemma IsOverlong(m: Message, target: int)
    ensures Overlong(m, target) <==> EstimateTokens(Rendered(m)) > target
  {
  }

  lemma GroupedIsChunking(messages: seq<Message>, target: nat, groups: seq<Group>, out: seq<MessageChunk>)
    requires Grouped(Kept(messages), target, groups, |Kept(messages)|, out)
    ensures IsChunking(messages, target, out)
  {
    hide Grouped, Kept;
  }

  lemma NothingYet(kept: seq<Message>, target: nat)
    requires target > 0
    ensures Grouped(kept, target, [], 0, [])
  {
  }

  method EmptyPack(ghost kept: seq<Message>, ghost target: nat, i: nat) returns (pack: Pack)
    requires i <= |kept|
    ensures IsPack(kept, target, pack, i) && pack.start == i
  {
    pack := Pack(i, [], [], [], 0);
    SumOfNone();
  }

  /** An empty pack costs nothing, so a message within the budget always fits after the flush. */
  lemma PackFits(kept: seq<Message>, target: nat, pack: Pack, i: nat)
    requires IsPack(kept, target, pack, i) && i < |kept| && EstimateTokens(Rendered(kept[i])) <= target
    requires pack.parts != [] ==> pack.tokens + EstimateTokens(Rendered(kept[i])) <= target
    ensures pack.tokens + EstimateTokens(Rendered(kept[i])) <= target
  {
    SumOfNone();
  }

  lemma SumOfNone()
    ensures SumTokens([]) == 0
  {
  }

  lemma PartsGrow(parts: seq<Text>, rendered: Text)
    ensures SumTokens(parts + [rendered]) == SumTokens(parts) + EstimateTokens(rendered)
  {
    assert (parts + [rendered])[..|parts|] == parts;
  }

  lemma PackedOk(kept: seq<Message>, target: nat, g: Group)
    requires g.Packed? && g.start < g.end <= |kept| && SumTokens(RenderedRange(kept, g.start, g.end)) <= target
    requires g.end < |kept| ==>
               SumTokens(RenderedRange(kept, g.start, g.end)) + EstimateTokens(Rendered(kept[g.end])) > target
    ensures GroupOk(kept, target, g) && GroupFull(kept, target, g)
  {
  }

  lemma SplitOk(kept: seq<Message>, target: nat, i: nat)
    requires i < |kept| && Overlong(kept[i], target)
    ensures GroupOk(kept, target, Split(i)) && GroupFull(kept, target, Split(i))
  {
  }

  method CleanMessages(messages: seq<Message>) returns (kept: seq<Message>)
    ensures kept == Kept(messages)
  {
    kept := [];
    for i := 0 to |messages|
      invariant kept == Kept(messages[..i])
    {
      assert messages[..i + 1][..i] == messages[..i];
      var text := Strip(messages[i].text);
      if text != [] {
        kept := kept + [Message(RoleOf(messages[i]), text, messages[i].id)];
      }
    }
    assert messages[..|messages|] == messages;
  }

  // ---- the budget, and where it is exceeded ----

  lemma PiecesAreClean(text: Text, target: nat)
    requires target > 0
    ensures forall p :: p in Prose(text, target) ==> IsClean(p) && EstimateTokens(p) <= target
  {
    var overlap := DefaultOverlap(target);
    var segs, pieces := SegmentsOf(Strip(text), target), Prose(text, target);
    ProseIsPacked(text, target, overlap);
    hide Prose, Strip, SegmentsOf, IsPacking, Renders, Windows, ProseChunks, IsClean, EstimateTokens, WithinBudget;
    var windows := Windows(segs, target, overlap);
    RendersCount(segs, windows, pieces);
    forall p | p in pieces ensures IsClean(p) && EstimateTokens(p) <= target {
      var k :| 0 <= k < |pieces| && pieces[k] == p;
      PieceIsClean(segs, target, windows, pieces, k);
    }
  }

  lemma PieceIsClean(segs: seq<Text>, target: nat, windows: seq<Window>, pieces: seq<Text>, k: nat)
    requires WithinBudget(segs, target) && IsPacking(segs, target, DefaultOverlap(target), windows)
    requires Renders(segs, windows, pieces) && k < |pieces|
    ensures IsClean(pieces[k]) && EstimateTokens(pieces[k]) <= target
  {
    ChunkWithinBudget(segs, target, DefaultOverlap(target), windows, pieces, k);
    assert Greedy(segs, target, windows[k]);
    var range := segs[windows[k].start..windows[k].end];
    hide Join, IsPacking, DefaultOverlap, SumTokens;
    assert EstimateTokens([]) == 0;
    forall q | q in range ensures IsStripped(q) && q != [] {
      assert q in segs;
    }
    JoinStripped(range, BLANK);
  }

  lemma {:induction false} PieceChunkAt(m: Message, pieces: seq<Text>, k: nat)
    requires k < |pieces|
    ensures |PieceChunks(m, pieces)| == |pieces| && PieceChunks(m, pieces)[k].text == RenderMessage(m.role, pieces[k])
  {
    if |pieces| > 1 {
      PieceChunkAt(m, pieces[..|pieces| - 1], if k < |pieces| - 1 then k else 0);
    }
  }

  lemma PieceChunkIs(m: Message, pieces: seq<Text>)
    ensures |PieceChunks(m, pieces)| == |pieces|
    ensures forall k :: 0 <= k < |pieces| ==> PieceChunks(m, pieces)[k].text == RenderMessage(m.role, pieces[k])
  {
    hide RenderMessage;
    forall k | 0 <= k < |pieces|
      ensures |PieceChunks(m, pieces)| == |pieces| && PieceChunks(m, pieces)[k].text == RenderMessage(m.role, pieces[k])
    {
      PieceChunkAt(m, pieces, k);
    }
  }

  function RoleCost(m: Message): nat {
    EstimateTokens(m.role + [COLON])
  }

  /** The role fits beside every piece that `chunk_prose` cuts the text of the message into. */
  predicate RoleFits(m: Message, target: nat)
    requires target > 0
  {
    forall p :: p in Prose(m.text, target) ==> RoleCost(m) + EstimateTokens(p) <= target
  }

  predicate InBudget(chunks: seq<MessageChunk>, target: int) {
    forall c :: c in chunks ==> EstimateTokens(c.text) <= target
  }

  /** A packed chunk never exceeds the budget; the chunks of a split message stay within it exactly when its role fits. */
  lemma GroupBudget(kept: seq<Message>, target: nat, g: Group)
    requires target > 0 && GroupOk(kept, target, g) && forall m :: m in kept ==> IsClean(m.role) && IsClean(m.text)
    ensures g.Packed? ==> InBudget(ChunksOf(kept, target, g), target)
    ensures g.Split? ==> (InBudget(ChunksOf(kept, target, g), target) <==> RoleFits(kept[g.index], target))
  {
    hide RenderMessage, SumTokens, EstimateTokens, JoinBlocks, Prose;
    match g
    case Packed(i, j) => BlocksEstimate(RenderedRange(kept, i, j));
    case Split(i) =>
      assert kept[i] in kept;
      SplitBudget(kept[i], target);
  }

  lemma SplitBudget(m: Message, target: nat)
    requires target > 0 && IsClean(m.role)
    ensures InBudget(PieceChunks(m, Prose(m.text, target)), target) <==> RoleFits(m, target)
  {
    hide RenderMessage, EstimateTokens, Prose, PieceChunks, RoleCost, IsClean, IsStripped;
    var pieces := Prose(m.text, target);
    var chunks := PieceChunks(m, pieces);
    PiecesAreClean(m.text, target);
    PieceChunkIs(m, pieces);
    forall k | 0 <= k < |pieces| ensures EstimateTokens(chunks[k].text) == RoleCost(m) + EstimateTokens(pieces[k]) {
      assert pieces[k] in pieces;
      RenderedTokens(m.role, pieces[k]);
      RoleCostIs(m);
    }
    SameBudget(chunks, pieces, RoleCost(m), target);
  }

  lemma SameBudget(chunks: seq<MessageChunk>, pieces: seq<Text>, cost: nat, target: nat)
    requires |chunks| == |pieces|
    requires forall k :: 0 <= k < |pieces| ==> EstimateTokens(chunks[k].text) == cost + EstimateTokens(pieces[k])
    ensures InBudget(chunks, target) <==> forall p :: p in pieces ==> cost + EstimateTokens(p) <= target
  {
    hide EstimateTokens;
    if InBudget(chunks, target) {
      forall p | p in pieces ensures cost + EstimateTokens(p) <= target {
        var k :| 0 <= k < |pieces| && pieces[k] == p;
        assert chunks[k] in chunks;
      }
    }
    if forall p :: p in pieces ==> cost + EstimateTokens(p) <= target {
      forall c | c in chunks ensures EstimateTokens(c.text) <= target {
        var k :| 0 <= k < |chunks| && chunks[k] == c;
        assert pieces[k] in pieces;
      }
    }
  }

  lemma RoleCostIs(m: Message)
    ensures RoleCost(m) == EstimateTokens(m.role + [COLON])
  {
  }

  lemma {:induction false} OutputExact(kept: seq<Message>, target: nat, groups: seq<Group>)
    requires target > 0 && forall k :: 0 <= k < |groups| ==> StartOf(groups[k]) < EndOf(groups[k]) <= |kept|
    ensures InBudget(Output(kept, target, groups), target)
            <==> forall k :: 0 <= k < |groups| ==> InBudget(ChunksOf(kept, target, groups[k]), target)
  {
    hide ChunksOf, EstimateTokens;
    if groups != [] {
      var earlier := groups[..|groups| - 1];
      OutputExact(kept, target, earlier);
      BudgetConcat(Output(kept, target, earlier), ChunksOf(kept, target, groups[|groups| - 1]), target);
      hide InBudget;
      assert forall k :: 0 <= k < |earlier| ==> earlier[k] == groups[k];
    }
  }

  lemma BudgetConcat(a: seq<MessageChunk>, b: seq<MessageChunk>, target: int)
    ensures InBudget(a + b, target) <==> InBudget(a, target) && InBudget(b, target)
  {
    hide EstimateTokens;
    assert forall c :: c in a + b <==> c in a || c in b;
  }

  /** The groups leave out no message. */
  lemma {:induction false} GroupHolding(groups: seq<Group>, upTo: nat, i: nat) returns (k: nat)
    requires InOrder(groups, upTo) && i < upTo && forall j :: 0 <= j < |groups| ==> StartOf(groups[j]) < EndOf(groups[j])
    ensures k < |groups| && StartOf(groups[k]) <= i < EndOf(groups[k])
  {
    var last := |groups| - 1;
    if StartOf(groups[last]) <= i {
      k := last;
    } else {
      k := GroupHolding(groups[..last], StartOf(groups[last]), i);
    }
  }

  lemma {:induction false} PartOfSum(kept: seq<Message>, i: nat, j: nat, m: nat)
    requires i <= m < j <= |kept|
    ensures EstimateTokens(Rendered(kept[m])) <= SumTokens(RenderedRange(kept, i, j))
    decreases j - i
  {
    hide Rendered, EstimateTokens;
    PartsGrow(RenderedRange(kept, i, j - 1), Rendered(kept[j - 1]));
    if m < j - 1 {
      PartOfSum(kept, i, j - 1, m);
    }
  }

  /** The split groups are the overlong messages. */
  lemma SplitsAreOverlong(kept: seq<Message>, target: nat, groups: seq<Group>, out: seq<MessageChunk>, i: nat) returns (k: nat)
    requires Grouped(kept, target, groups, |kept|, out) && i < |kept| && Overlong(kept[i], target)
    ensures k < |groups| && groups[k] == Split(i)
  {
    hide Output, ChunksOf, Rendered, EstimateTokens, SumTokens, RenderedRange, GroupFull;
    forall j | 0 <= j < |groups| ensures StartOf(groups[j]) < EndOf(groups[j]) {
      assert GroupOk(kept, target, groups[j]);
    }
    k := GroupHolding(groups, |kept|, i);
    assert GroupOk(kept, target, groups[k]);
    if groups[k].Packed? {
      PartOfSum(kept, groups[k].start, groups[k].end, i);
    }
  }

  /**
   All chunks of a conversation are within the target exactly when every overlong message leaves room for its role
   beside each piece that prose chunking cuts its text into.
   */
  lemma OutputBudgetExact(messages: seq<Message>, target: nat, out: seq<MessageChunk>)
    requires target > 0 && IsChunking(messages, target, out)
    ensures InBudget(out, target)
            <==> forall m :: m in Kept(messages) && Overlong(m, target) ==> RoleFits(m, target)
  {
    var kept := Kept(messages);
    KeptAreClean(messages);
    hide Kept, Overlong, RoleFits, InBudget, Output, ChunksOf, InOrder, GroupFull, EstimateTokens, SumTokens;
    var groups: seq<Group> :| Grouped(kept, target, groups, |kept|, out);
    GroupsOk(kept, target, groups, out);
    OutputExact(kept, target, groups);
    forall k | 0 <= k < |groups|
      ensures InBudget(ChunksOf(kept, target, groups[k]), target)
              <==> (groups[k].Split? ==> Overlong(kept[groups[k].index], target) && RoleFits(kept[groups[k].index], target))
    {
      GroupBudget(kept, target, groups[k]);
    }
    forall m | m in kept && Overlong(m, target) ensures exists k :: 0 <= k < |groups| && groups[k].Split? && kept[groups[k].index] == m {
      var i :| 0 <= i < |kept| && kept[i] == m;
      var k := SplitsAreOverlong(kept, target, groups, out, i);
    }
    hide Grouped, GroupOk;
    assert forall k :: 0 <= k < |groups| && groups[k].Split? ==> kept[groups[k].index] in kept;
  }

  lemma GroupsOk(kept: seq<Message>, target: nat, groups: seq<Group>, out: seq<MessageChunk>)
    requires Grouped(kept, target, groups, |kept|, out)
    ensures target > 0 && forall k :: 0 <= k < |groups| ==>
      GroupOk(kept, target, groups[k]) && StartOf(groups[k]) < EndOf(groups[k]) <= |kept|
      && (groups[k].Split? ==> Overlong(kept[groups[k].index], target))
    ensures out == Output(kept, target, groups)
  {
    hide Output, Overlong, SumTokens, RenderedRange;
    forall k | 0 <= k < |groups| ensures GroupOk(kept, target, groups[k]) {
    }
  }

  // ---- what a caller sees in advance ----

  /** When no message renders over the target, every chunk fits. */
  lemma ShortMessagesFit(messages: seq<Message>, target: nat, out: seq<MessageChunk>)
    requires target > 0 && IsChunking(messages, target, out)
    requires forall m :: m in Kept(messages) ==> !Overlong(m, target)
    ensures InBudget(out, target)
  {
    hide Kept, Overlong, RoleFits, InBudget, IsChunking;
    OutputBudgetExact(messages, target, out);
  }

  /** A role that takes the whole target leaves no room: any overlong message under it comes back over the target. */
  lemma LongRoleOverflows(messages: seq<Message>, target: nat, out: seq<MessageChunk>, m: Message)
    requires target > 0 && IsChunking(messages, target, out)
    requires m in Kept(messages) && Overlong(m, target) && RoleCost(m) >= target
    ensures !InBudget(out, target)
  {
    OutputBudgetExact(messages, target, out);
    KeptAreClean(messages);
    hide Kept, Overlong, InBudget, IsChunking, Prose, RoleCost, EstimateTokens;
    ProseIsNotEmpty(m.text, target);
    PiecesAreClean(m.text, target);
    var p := Prose(m.text, target)[0];
    assert p in Prose(m.text, target);
    CleanHasToken(p);
  }

  lemma ProseIsNotEmpty(text: Text, target: nat)
    requires target > 0 && IsClean(text)
    ensures Prose(text, target) != []
  {
    var overlap := DefaultOverlap(target);
    var segs := SegmentsOf(Strip(text), target);
    ProseIsPacked(text, target, overlap);
    ContentAndTokens(text);
    ConcatNone();
    hide SegmentsOf, Strip, ProseChunks, Squeeze, Concat, Windows, Chained, Renders;
    RendersCount(segs, Windows(segs, target, overlap), ProseChunks(text, target, overlap));
  }

  lemma CleanHasToken(s: Text)
    requires IsClean(s)
    ensures EstimateTokens(s) > 0
  {
    ContentAndTokens(s);
  }

  // ---- a text that fits alone but not beside its role ----

  /** The ideographic space is both whitespace and a token; without it, dropping whitespace costs no token. */
  predicate PlainSpaced(s: Text) {
    forall c :: c in s ==> c.kind != CjkSpace
  }

  lemma PlainParts(a: Text, b: Text)
    ensures PlainSpaced(a + b) <==> PlainSpaced(a) && PlainSpaced(b)
  {
    assert forall c :: c in a + b <==> c in a || c in b;
  }

  lemma {:induction false} LStripTokens(s: Text)
    requires PlainSpaced(s)
    ensures EstimateTokens(LStrip(s)) == EstimateTokens(s) && PlainSpaced(LStrip(s))
  {
    if s != [] && IsSpace(s[0]) {
      assert s[0] in s && s == [s[0]] + s[1..];
      PlainParts([s[0]], s[1..]);
      LStripTokens(s[1..]);
    }
  }

  lemma {:induction false} RStripTokens(s: Text)
    requires PlainSpaced(s)
    ensures EstimateTokens(RStrip(s)) == EstimateTokens(s)
  {
    if s != [] && IsSpace(s[|s| - 1]) {
      var init, last := s[..|s| - 1], s[|s| - 1];
      assert last in s && s == init + [last] + [];
      assert s == init + [last];
      PlainParts(init, [last]);
      EstimateOverSpace(init, last, []);
      RStripTokens(init);
    }
  }

  lemma StripTokens(s: Text)
    requires PlainSpaced(s)
    ensures EstimateTokens(Strip(s)) == EstimateTokens(s)
  {
    LStripTokens(s);
    RStripTokens(LStrip(s));
  }

  lemma {:induction false} GapTokens(gap: Text, rest: Text)
    requires forall c :: c in gap ==> c.kind == Space
    ensures EstimateTokens(gap + rest) == EstimateTokens(rest)
  {
    if gap == [] {
      assert gap + rest == rest;
    } else {
      assert gap[0] in gap && (gap + rest)[1..] == gap[1..] + rest;
      GapTokens(gap[1..], rest);
    }
  }

  lemma {:induction false} ParagraphTokens(s: Text)
    requires PlainSpaced(s)
    ensures SumTokens(Paragraphs(s)) == EstimateTokens(s)
    ensures forall p :: p in Paragraphs(s) ==> PlainSpaced(p) && EstimateTokens(p) <= EstimateTokens(s)
    decreases |s|
  {
    var b := FindBreak(s, 0);
    if b == |s| {
      SumOfOne(s);
    } else {
      var e := BreakEnd(s, b);
      var front, gap, rest := s[..b], s[b + 1..e], s[e..];
      assert s == front + [s[b]] + (gap + rest);
      PlainParts(front, [s[b]] + (gap + rest));
      assert s == s[..e] + rest;
      PlainParts(s[..e], rest);
      forall c | c in s[b..e] ensures c.kind == Space {
        var k :| b <= k < e && s[k] == c;
        assert s[k] in s;
      }
      assert s[b] == s[b..e][0] && s[b] in s[b..e];
      assert forall c :: c in gap ==> c in s[b..e];
      EstimateOverSpace(front, s[b], gap + rest);
      GapTokens(gap, rest);
      hide EstimateTokens, PlainSpaced;
      ParagraphTokens(rest);
      var more := Paragraphs(rest);
      assert Paragraphs(s) == [front] + more;
      SumOfOne(front);
      SumConcat([front], more);
    }
  }

  lemma {:induction false} WholeParagraphs(paras: seq<Text>, target: nat)
    requires target > 0 && forall p :: p in paras ==> PlainSpaced(p) && EstimateTokens(p) <= target
    ensures SumTokens(ParagraphSegments(paras, target)) == SumTokens(paras)
  {
    ConcatNone();
    if paras != [] {
      hide EstimateTokens, PlainSpaced, Strip, SentenceSegments, Sentences, SumTokens;
      var k := |paras| - 1;
      assert paras[k] in paras && paras == paras[..k] + [paras[k]];
      WholeParagraphs(paras[..k], target);
      StripTokens(paras[k]);
      var part := ParagraphPart(paras[k], target);
      BlankTokens();
      if Strip(paras[k]) != [] {
        SumOfOne(Strip(paras[k]));
      }
      SumConcat(ParagraphSegments(paras[..k], target), part);
      SumSnoc(paras[..k], paras[k]);
    }
  }

  lemma BlankTokens()
    ensures EstimateTokens([]) == 0 && SumTokens([]) == 0
  {
  }

  /** A clean text within the target is one piece. */
  lemma OnePiece(text: Text, target: nat) returns (p: Text)
    requires target > 0 && IsClean(text) && PlainSpaced(text) && EstimateTokens(text) <= target
    ensures p in Prose(text, target) && EstimateTokens(p) == EstimateTokens(text)
  {
    var overlap := DefaultOverlap(target);
    StripNoop(text);
    hide Strip, EstimateTokens, PlainSpaced, SumTokens, Paragraphs, ParagraphSegments, Squeeze, Concat, IsClean;
    var segs := SegmentsOf(text, target);
    ParagraphTokens(text);
    WholeParagraphs(Paragraphs(text), target);
    ProseIsPacked(text, target, overlap);
    ProseIsNotEmpty(text, target);
    var windows := Windows(segs, target, overlap);
    RendersCount(segs, windows, Prose(text, target));
    p := Prose(text, target)[0];
    hide ProseChunks, SegmentsOf;
    OneWindow(segs, target, overlap);
    ChunkWithinBudget(segs, target, overlap, windows, Prose(text, target), 0);
  }

  /** Segments that fit together are one window. */
  lemma OneWindow(segs: seq<Text>, target: nat, overlap: int)
    requires WithinBudget(segs, target) && segs != [] && SumTokens(segs) <= target
    ensures Windows(segs, target, overlap) == [Window(0, |segs|)] && Span(segs, 0, |segs|) == SumTokens(segs)
  {
    assert segs[0..|segs|] == segs;
    GreedyEndIs(segs, target, 0, 1, |segs|);
  }

  /** A text that is within the target, but not beside its role, always comes back over the target. */
  lemma ShortTextOverflows(messages: seq<Message>, target: nat, out: seq<MessageChunk>, m: Message)
    requires target > 0 && IsChunking(messages, target, out) && m in Kept(messages) && PlainSpaced(m.text)
    requires EstimateTokens(m.text) <= target < RoleCost(m) + EstimateTokens(m.text)
    ensures !InBudget(out, target)
  {
    KeptAreClean(messages);
    hide Kept, InBudget, IsChunking, Prose, EstimateTokens, PlainSpaced, IsClean;
    RenderedTokens(m.role, m.text);
    OutputBudgetExact(messages, target, out);
    var p := OnePiece(m.text, target);
  }

  const A: Text := [Ch('a', Word)]
  const B: Text := [Ch('b', Word)]

  /** The budget is not a hard one here: `a: b` at a budget of two tokens comes back as a chunk over it. */
  lemma BudgetCanBeExceeded(out: seq<MessageChunk>)
    requires IsChunking([Message(A, B, [])], 2, out)
    ensures !InBudget(out, 2)
  {
    ExampleKept(Message(A, B, []));
    TokensOfExample();
    ShortTextOverflows([Message(A, B, [])], 2, out, Message(A, B, []));
  }

  lemma ExampleKept(m: Message)
    requires IsClean(m.role) && IsClean(m.text)
    ensures Kept([m]) == [m]
  {
    StripNoop(m.role);
    StripNoop(m.text);
    assert [m][..0] == [] && Kept([]) == [];
    assert [] + [m] == [m];
  }

  lemma TokensOfExample()
    ensures EstimateTokens(A + [COLON]) == 2 && EstimateTokens(B) == 1
  {
    CountIsEstimate(A + [COLON]);
    CountIsEstimate(B);
    assert (A + [COLON])[1..] == [COLON] && [COLON][1..] == [] && B[1..] == [];
  }
}

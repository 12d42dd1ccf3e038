/**
 What the chunks of a conversation hold, said without the functions that build them: which messages are kept, the
 roles, ids and text of each chunk, and that the chunks of the groups follow one another.
 */
module MessageMeaning {
  import opened Basics
  import opened Tokeniser
  import opened Segments
  import opened Chunking
  import opened MessageChunks
  import Pieces = SegmentMeaning

  // ---- the messages that are kept ----

  /** `t` is `s` without the whitespace around it, and there is something left. */
  ghost predicate StripsTo(s: Text, t: Text) {
    t != [] && IsStripped(t) && exists lead: Text, trail: Text :: Around(s, lead, t, trail)
  }

  predicate Around(s: Text, lead: Text, t: Text, trail: Text) {
    s == lead + t + trail && Pieces.AllSpace(lead) && Pieces.AllSpace(trail)
  }

  /** The message with its role and text cleaned up, the role `unknown` where none is given. */
  ghost predicate Cleaned(m: Message, c: Message) {
    && c.id == m.id && StripsTo(m.text, c.text)
    && if Pieces.AllSpace(m.role) then Spelled(c.role, "unknown") else StripsTo(m.role, c.role)
  }

  predicate Spelled(t: Text, s: string) {
    |t| == |s| && forall i :: 0 <= i < |t| ==> t[i] == Ch(s[i], Word)
  }

  lemma BlankOrStripped(s: Text)
    ensures if Pieces.AllSpace(s) then Strip(s) == [] else StripsTo(s, Strip(s))
  {
    var lead, trail := Pieces.StripMeans(s);
    hide Strip, Pieces.AllSpace;
    assert Around(s, lead, Strip(s), trail);
    SpaceAround(s, lead, Strip(s), trail);
  }

  lemma SpaceAround(s: Text, lead: Text, t: Text, trail: Text)
    requires Around(s, lead, t, trail) && IsStripped(t)
    ensures Pieces.AllSpace(s) <==> t == []
  {
    if t != [] {
      assert s[|lead|] == t[0];
    }
  }

  /** The kept messages are those at the positions `at`, in order: the ones with any text, cleaned up. */
  ghost predicate KeptAt(messages: seq<Message>, kept: seq<Message>, at: seq<nat>) {
    && |at| == |kept| && Rising(at, |messages|)
    && (forall i: nat :: i < |messages| ==> (i in at <==> !Pieces.AllSpace(messages[i].text)))
    && forall k: nat :: k < |at| ==> Cleaned(messages[at[k]], kept[k])
  }

  lemma {:induction false} KeptMeans(messages: seq<Message>) returns (at: seq<nat>)
    ensures KeptAt(messages, Kept(messages), at)
    decreases |messages|
  {
    hide *;
    if messages == [] {
      at := [];
      NoneKept();
    } else {
      var init, last := Init(messages), Last(messages);
      at := KeptMeans(init);
      InitIsShorter(messages);
      KeptStep(messages);
      CleanedIs(last);
      if Pieces.AllSpace(last.text) {
        KeptSkip(init, Kept(init), at, last);
      } else {
        KeptMore(init, Kept(init), at, last, Message(RoleOf(last), Strip(last.text), last.id));
        at := at + [|init|];
      }
    }
  }

  lemma InitIsShorter<T>(s: seq<T>)
    requires s != []
    ensures |Init(s)| == |s| - 1 && s == Init(s) + [Last(s)]
  {
  }

  lemma NoneKept()
    ensures KeptAt([], Kept([]), [])
  {
  }

  lemma KeptStep(messages: seq<Message>)
    requires messages != []
    ensures var m, sofar := Last(messages), Kept(Init(messages));
      Kept(messages) == if Strip(m.text) == [] then sofar else sofar + [Message(RoleOf(m), Strip(m.text), m.id)]
  {
    hide Strip, RoleOf;
  }

  lemma CleanedIs(m: Message)
    ensures Pieces.AllSpace(m.text) <==> Strip(m.text) == []
    ensures !Pieces.AllSpace(m.text) ==> Cleaned(m, Message(RoleOf(m), Strip(m.text), m.id))
  {
    BlankOrStripped(m.text);
    BlankOrStripped(m.role);
    hide Strip, Pieces.AllSpace, Around, IsStripped;
  }

  lemma KeptSkip(messages: seq<Message>, kept: seq<Message>, at: seq<nat>, m: Message)
    requires KeptAt(messages, kept, at) && Pieces.AllSpace(m.text)
    ensures KeptAt(messages + [m], kept, at)
  {
    hide Pieces.AllSpace, Cleaned;
    RisingMore(at, |messages|);
  }

  lemma KeptMore(messages: seq<Message>, kept: seq<Message>, at: seq<nat>, m: Message, c: Message)
    requires KeptAt(messages, kept, at) && !Pieces.AllSpace(m.text) && Cleaned(m, c)
    ensures KeptAt(messages + [m], kept + [c], at + [|messages|])
  {
    hide Pieces.AllSpace, Cleaned;
    RisingMore(at, |messages|);
  }

  // ---- roles, ids and text of a pack ----

  /** Positions from `i` up to `j`, in order. */
  predicate Between(at: seq<nat>, i: nat, j: nat) {
    Rising(at, j) && forall k: nat :: k in at ==> i <= k
  }

  lemma BetweenMore(at: seq<nat>, i: nat, j: nat)
    requires i < j && Between(at, i, j - 1)
    ensures Between(at, i, j) && Between(at + [j - 1], i, j)
    ensures forall k: nat :: k in at + [j - 1] <==> k in at || k == j - 1
    ensures forall k: nat :: k in at ==> k < j - 1
  {
    RisingMore(at, j - 1);
  }

  /** No message of the pack before `k` has its role. */
  predicate FirstOfRole(kept: seq<Message>, i: nat, k: nat)
    requires i <= k < |kept|
  {
    forall e :: i <= e < k ==> kept[e].role != kept[k].role
  }

  /** Each role of the pack once, in the order in which they first appear. */
  ghost predicate RolesAre(kept: seq<Message>, i: nat, j: nat, roles: seq<Text>, at: seq<nat>)
    requires i <= j <= |kept|
  {
    && |at| == |roles| && Between(at, i, j)
    && (forall k: nat :: i <= k < j ==> (k in at <==> FirstOfRole(kept, i, k)))
    && forall x: nat :: x < |at| ==> at[x] < j && roles[x] == kept[at[x]].role
  }

  /** The ids that are given, in message order. */
  ghost predicate IdsAre(kept: seq<Message>, i: nat, j: nat, ids: seq<Text>, at: seq<nat>)
    requires i <= j <= |kept|
  {
    && |at| == |ids| && Between(at, i, j)
    && (forall k: nat :: i <= k < j ==> (k in at <==> kept[k].id != []))
    && forall x: nat :: x < |at| ==> at[x] < j && ids[x] == kept[at[x]].id
  }

  lemma {:induction false} RolesMean(kept: seq<Message>, i: nat, j: nat) returns (at: seq<nat>)
    requires i <= j <= |kept|
    ensures RolesAre(kept, i, j, RolesOf(kept, i, j), at)
    decreases j - i
  {
    if i == j {
      at := [];
    } else {
      at := RolesMean(kept, i, j - 1);
      RoleIsIn(kept, i, j - 1, RolesOf(kept, i, j - 1), at, j - 1);
      RolesMore(kept, i, j, RolesOf(kept, i, j - 1), at);
      hide RolesAre, FirstOfRole;
      if FirstOfRole(kept, i, j - 1) {
        at := at + [j - 1];
      }
    }
  }

  lemma RolesMore(kept: seq<Message>, i: nat, j: nat, roles: seq<Text>, at: seq<nat>)
    requires i < j <= |kept| && RolesAre(kept, i, j - 1, roles, at)
    ensures if FirstOfRole(kept, i, j - 1) then RolesAre(kept, i, j, roles + [kept[j - 1].role], at + [j - 1])
            else RolesAre(kept, i, j, roles, at)
  {
    BetweenMore(at, i, j);
    hide Between, FirstOfRole;
  }

  /** A role is among the roles so far exactly when an earlier message has it. */
  lemma RoleIsIn(kept: seq<Message>, i: nat, j: nat, roles: seq<Text>, at: seq<nat>, k: nat)
    requires i <= j == k < |kept| && RolesAre(kept, i, j, roles, at)
    ensures kept[k].role in roles <==> !FirstOfRole(kept, i, k)
  {
    if kept[k].role in roles {
      var x: nat :| x < |roles| && roles[x] == kept[k].role;
      assert at[x] in at && kept[at[x]].role == kept[k].role;
    }
    if !FirstOfRole(kept, i, k) {
      var e :| i <= e < k && kept[e].role == kept[k].role;
      var f := FirstWith(kept, i, e);
      assert f in at;
      var x: nat :| x < |at| && at[x] == f;
      assert roles[x] == kept[k].role;
    }
  }

  lemma {:induction false} FirstWith(kept: seq<Message>, i: nat, e: nat) returns (f: nat)
    requires i <= e < |kept|
    ensures i <= f <= e && kept[f].role == kept[e].role && FirstOfRole(kept, i, f)
    decreases e
  {
    if FirstOfRole(kept, i, e) {
      f := e;
    } else {
      var d :| i <= d < e && kept[d].role == kept[e].role;
      f := FirstWith(kept, i, d);
    }
  }

  lemma {:induction false} IdsMean(kept: seq<Message>, i: nat, j: nat) returns (at: seq<nat>)
    requires i <= j <= |kept|
    ensures IdsAre(kept, i, j, IdsOf(kept, i, j), at)
    decreases j - i
  {
    if i == j {
      at := [];
    } else {
      at := IdsMean(kept, i, j - 1);
      IdsMore(kept, i, j, IdsOf(kept, i, j - 1), at);
      hide IdsAre;
      if kept[j - 1].id != [] {
        at := at + [j - 1];
      }
    }
  }

  lemma IdsMore(kept: seq<Message>, i: nat, j: nat, ids: seq<Text>, at: seq<nat>)
    requires i < j <= |kept| && IdsAre(kept, i, j - 1, ids, at)
    ensures if kept[j - 1].id == [] then IdsAre(kept, i, j, ids, at) else IdsAre(kept, i, j, ids + [kept[j - 1].id], at + [j - 1])
  {
    BetweenMore(at, i, j);
    hide Between;
  }

  /** `role: text` */
  predicate Says(rendered: Text, role: Text, text: Text) {
    rendered == role + [Ch(':', Mark), Ch(' ', Space)] + text
  }

  ghost predicate AllClean(kept: seq<Message>) {
    forall m :: m in kept ==> IsClean(m.role) && IsClean(m.text)
  }

  lemma SaysRendered(role: Text, text: Text)
    requires IsClean(role) && IsClean(text)
    ensures Says(RenderMessage(role, text), role, text)
  {
    hide EstimateTokens, IsClean, RenderMessage;
    RenderedTokens(role, text);
  }

  /** The messages of a pack, each as `role: text`. */
  ghost predicate RangeSays(kept: seq<Message>, i: nat, j: nat, parts: seq<Text>)
    requires i <= j <= |kept|
  {
    |parts| == j - i && forall k: nat :: k < |parts| ==> Says(parts[k], kept[i + k].role, kept[i + k].text)
  }

  lemma {:induction false} RangeMeans(kept: seq<Message>, i: nat, j: nat)
    requires i <= j <= |kept| && AllClean(kept)
    ensures RangeSays(kept, i, j, RenderedRange(kept, i, j))
    decreases j - i
  {
    if i < j {
      RangeMeans(kept, i, j - 1);
      assert kept[j - 1] in kept;
      SaysRendered(kept[j - 1].role, kept[j - 1].text);
      hide Says, RenderMessage, IsClean;
    }
  }

  const BLANK_LINE: Text := [Ch('\n', Space), Ch('\n', Space)]

  /** Between the parts stands one blank line. */
  lemma {:induction false} BlocksMean(parts: seq<Text>)
    requires parts != []
    ensures JoinBlocks(parts) == Pieces.Weave(parts, seq(|parts| - 1, _ => BLANK_LINE))
  {
    if |parts| == 1 {
      assert Pieces.Weave(parts, []) == parts[0];
      assert seq(0, _ => BLANK_LINE) == [];
    } else {
      var init, last := Init(parts), Last(parts);
      var gaps := seq(|init| - 1, _ => BLANK_LINE);
      BlocksMean(init);
      Pieces.WeaveBack(init, gaps, BLANK_LINE, last);
      assert parts == init + [last];
      assert seq(|parts| - 1, _ => BLANK_LINE) == gaps + [BLANK_LINE];
      assert JoinBlocks(init) + [NEWLINE] + ([NEWLINE] + last) == JoinBlocks(init) + BLANK_LINE + last;
    }
  }

  // ---- the chunks of the groups ----

  /** One chunk: the messages in order with blank lines between them, their roles and their ids. */
  ghost predicate PackSays(kept: seq<Message>, i: nat, j: nat, c: MessageChunk)
    requires i < j <= |kept|
  {
    && (exists parts: seq<Text> :: RangeSays(kept, i, j, parts) && c.text == Pieces.Weave(parts, seq(|parts| - 1, _ => BLANK_LINE)))
    && (exists at: seq<nat> :: RolesAre(kept, i, j, c.roles, at))
    && exists at: seq<nat> :: IdsAre(kept, i, j, c.ids, at)
  }

  /** One chunk for each piece of the prose, under the role and id of the message. */
  ghost predicate SplitSays(m: Message, pieces: seq<Text>, chunks: seq<MessageChunk>) {
    |chunks| == |pieces| && forall k: nat :: k < |chunks| ==> PieceSays(m, pieces[k], chunks[k])
  }

  predicate PieceSays(m: Message, piece: Text, c: MessageChunk) {
    Says(c.text, m.role, piece) && c.roles == [m.role] && c.ids == if m.id == [] then [] else [m.id]
  }

  ghost predicate GroupSays(kept: seq<Message>, target: nat, g: Group, chunks: seq<MessageChunk>)
    requires target > 0 && StartOf(g) < EndOf(g) <= |kept|
  {
    match g
    case Packed(i, j) => |chunks| == 1 && PackSays(kept, i, j, chunks[0])
    case Split(i) => SplitSays(kept[i], ProseChunks(kept[i].text, target, target * 15 / 100), chunks)
  }

  lemma PackMeans(kept: seq<Message>, i: nat, j: nat)
    requires i < j <= |kept| && AllClean(kept)
    ensures PackSays(kept, i, j, MessageChunk(JoinBlocks(RenderedRange(kept, i, j)), RolesOf(kept, i, j), IdsOf(kept, i, j)))
  {
    hide AllClean, Pieces.Weave, RolesAre, IdsAre, RolesOf, IdsOf, RenderedRange, JoinBlocks;
    RangeMeans(kept, i, j);
    BlocksMean(RenderedRange(kept, i, j));
    var roles := RolesMean(kept, i, j);
    var ids := IdsMean(kept, i, j);
  }

  lemma {:induction false} PieceChunksMean(m: Message, pieces: seq<Text>)
    requires IsClean(m.role) && forall p :: p in pieces ==> IsClean(p)
    ensures SplitSays(m, pieces, PieceChunks(m, pieces))
  {
    if pieces != [] {
      var init, last := pieces[..|pieces| - 1], pieces[|pieces| - 1];
      forall p | p in init ensures IsClean(p) { assert p in pieces; }
      PieceChunksMean(m, init);
      assert last in pieces;
      SaysRendered(m.role, last);
      hide Says, RenderMessage, IsClean;
    }
  }

  lemma DefaultOverlapIs(target: nat)
    ensures DefaultOverlap(target) == target * 15 / 100
  {
    assert target as real * 0.15 == (target * 15) as real / 100.0;
    assert ((target * 15) as real / 100.0).Floor == target * 15 / 100;
  }

  lemma ChunksMean(kept: seq<Message>, target: nat, g: Group)
    requires target > 0 && StartOf(g) < EndOf(g) <= |kept| && AllClean(kept)
    ensures GroupSays(kept, target, g, ChunksOf(kept, target, g))
  {
    hide PackSays, SplitSays, RolesOf, IdsOf, RenderedRange, JoinBlocks, PieceChunks, IsClean, DefaultOverlap, ProseChunks;
    match g
    case Packed(i, j) => PackMeans(kept, i, j);
    case Split(i) =>
      assert kept[i] in kept;
      DefaultOverlapIs(target);
      PiecesAreClean(kept[i].text, target);
      PieceChunksMean(kept[i], Prose(kept[i].text, target));
  }

  /** What the groups say, one after the other. */
  ghost predicate GroupsSay(kept: seq<Message>, target: nat, groups: seq<Group>, parts: seq<seq<MessageChunk>>, out: seq<MessageChunk>)
    requires target > 0
  {
    && |parts| == |groups| && out == Pieces.Flat(parts)
    && forall k :: 0 <= k < |parts| ==>
         StartOf(groups[k]) < EndOf(groups[k]) <= |kept| && GroupSays(kept, target, groups[k], parts[k])
  }

  lemma {:induction false} OutputMeans(kept: seq<Message>, target: nat, groups: seq<Group>) returns (parts: seq<seq<MessageChunk>>)
    requires target > 0 && AllClean(kept)
    requires forall k :: 0 <= k < |groups| ==> StartOf(groups[k]) < EndOf(groups[k]) <= |kept|
    ensures GroupsSay(kept, target, groups, parts, Output(kept, target, groups))
  {
    hide AllClean, GroupSays, ChunksOf, StartOf, EndOf;
    if groups == [] {
      parts := [];
    } else {
      var init, last := groups[..|groups| - 1], groups[|groups| - 1];
      parts := OutputMeans(kept, target, init);
      ChunksMean(kept, target, last);
      Pieces.FlatMore(parts, ChunksOf(kept, target, last));
      parts := parts + [ChunksOf(kept, target, last)];
    }
  }

  /** The whole conversation: groups in order over the messages that have text, and what each of them says. */
  lemma ConversationMeans(messages: seq<Message>, target: nat, out: seq<MessageChunk>)
      returns (kept: seq<Message>, at: seq<nat>, groups: seq<Group>, parts: seq<seq<MessageChunk>>)
    requires target > 0 && IsChunking(messages, target, out)
    ensures KeptAt(messages, kept, at) && InOrder(groups, |kept|)
    ensures forall k :: 0 <= k < |groups| ==> GroupOk(kept, target, groups[k]) && GroupFull(kept, target, groups[k])
    ensures GroupsSay(kept, target, groups, parts, out)
  {
    hide KeptAt, GroupsSay, Kept, InOrder, SumTokens, RenderedRange, Overlong, GroupFull, Output;
    kept := Kept(messages);
    at := KeptMeans(messages);
    KeptAreClean(messages);
    groups :| Grouped(kept, target, groups, |kept|, out);
    GroupsOk(kept, target, groups, out);
    parts := OutputMeans(kept, target, groups);
  }
}

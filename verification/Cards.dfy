/**
 The local card table of a repository and the projection that renders a central task into it.
 */
module Cards {
  import opened Options

  datatype Task = Task(
    globalId: string, title: Option<string>, description: Option<string>, priority: Option<string>,
    status: string, version: Option<int>, changeSeq: int)

  datatype Card = Card(
    cardId: string, title: string, description: Option<string>, priority: Option<string>,
    status: string, globalId: Option<string>, version: Option<int>)

  // ---- the two status vocabularies ----

  const VALID_STATUSES: set<string> := {"Created", "In Progress", "Complete"}
  const SYNC_STATUSES: set<string> := {"created", "in_progress", "blocked", "complete"}

  function LocalStatusToSync(status: Option<string>): string {
    match status
    case Some("In Progress") => "in_progress"
    case Some("Complete") => "complete"
    case _ => "created"
  }

  function SyncStatusToLocal(status: string): string {
    match status
    case "in_progress" => "In Progress"
    case "blocked" => "In Progress"
    case "complete" => "Complete"
    case _ => "Created"
  }

  /** Up then down is the identity on local statuses; down then up loses only `blocked`; neither leaves its vocabulary. */
  lemma StatusRoundTrip(local: string, sync: string)
    ensures SyncStatusToLocal(sync) in VALID_STATUSES && LocalStatusToSync(Some(local)) in SYNC_STATUSES - {"blocked"}
    ensures SyncStatusToLocal(LocalStatusToSync(Some(local))) == local <==> local in VALID_STATUSES
    ensures LocalStatusToSync(Some(SyncStatusToLocal(sync))) == sync <==> sync in SYNC_STATUSES - {"blocked"}
    ensures SyncStatusToLocal(sync) == "In Progress" <==> sync == "in_progress" || sync == "blocked"
    ensures SyncStatusToLocal(sync) == "Complete" <==> sync == "complete"
    ensures LocalStatusToSync(None) == "created"
  {
  }

  // ---- the projection ----

  function Coalesce<T>(a: Option<T>, b: Option<T>): Option<T> {
    if a.Some? then a else b
  }

  predicate Carries(c: Card, id: string) {
    c.globalId == Some(id)
  }

  predicate HasCard(cards: seq<Card>, id: string) {
    exists i :: 0 <= i < |cards| && Carries(cards[i], id)
  }

  function Refreshed(c: Card, t: Task): Card {
    c.(title := if t.title.Some? then t.title.value else c.title,
       description := Coalesce(t.description, c.description), priority := Coalesce(t.priority, c.priority),
       status := SyncStatusToLocal(t.status), version := t.version)
  }

  function NewCard(t: Task, cardId: string): Card {
    Card(cardId, if t.title.Some? then t.title.value else "", t.description, t.priority,
         SyncStatusToLocal(t.status), Some(t.globalId), t.version)
  }

  /** `UPDATE cards SET ... WHERE global_id = ?`. */
  function Updated(cards: seq<Card>, t: Task): (r: seq<Card>)
    ensures |r| == |cards|
  {
    seq(|cards|, i requires 0 <= i < |cards| => if Carries(cards[i], t.globalId) then Refreshed(cards[i], t) else cards[i])
  }

  function Projected(cards: seq<Card>, t: Task, cardId: string): seq<Card> {
    if HasCard(cards, t.globalId) then Updated(cards, t) else cards + [NewCard(t, cardId)]
  }

  predicate IdTaken(cards: seq<Card>, cardId: string) {
    exists i :: 0 <= i < |cards| && cards[i].cardId == cardId
  }

  /** What may go wrong in one projection besides its input: nothing written, or written and then not readable. */
  datatype Fault = NoFault | RolledBack | NotReadBack

  /** The projection writes nothing: no identity, the database refuses, or the fresh display id is already a key. */
  predicate Refused(cards: seq<Card>, t: Task, cardId: string, fault: Fault) {
    t.globalId == "" || fault.RolledBack? || (!HasCard(cards, t.globalId) && IdTaken(cards, cardId))
  }

  class CardTable {
    var cards: seq<Card>

    constructor ()
      ensures cards == []
    {
      cards := [];
    }

    method Exists(id: string) returns (found: bool)
      ensures found <==> HasCard(cards, id)
    {
      found := false;
      for i := 0 to |cards|
        invariant found <==> exists j :: 0 <= j < i && Carries(cards[j], id)
      {
        if Carries(cards[i], id) {
          found := true;
        }
      }
    }

    method IsTaken(cardId: string) returns (taken: bool)
      ensures taken <==> IdTaken(cards, cardId)
    {
      taken := false;
      for i := 0 to |cards|
        invariant taken <==> exists j :: 0 <= j < i && cards[j].cardId == cardId
      {
        if cards[i].cardId == cardId {
          taken := true;
        }
      }
    }

    method Update(t: Task)
      modifies this
      ensures cards == Updated(old(cards), t)
    {
      var rows: seq<Card> := [];
      for i := 0 to |cards|
        invariant cards == old(cards) && rows == Updated(old(cards), t)[..i]
      {
        rows := rows + [if Carries(cards[i], t.globalId) then Refreshed(cards[i], t) else cards[i]];
      }
      cards := rows;
    }

    /** One transaction: create or update the card that carries the task's identity. */
    method ApplyTaskProjection(t: Task, cardId: string, fault: Fault) returns (ok: bool)
      modifies this
      ensures ok <==> !Refused(old(cards), t, cardId, fault) && !fault.NotReadBack?
      ensures cards == if Refused(old(cards), t, cardId, fault) then old(cards) else Projected(old(cards), t, cardId)
    {
      if t.globalId == "" || fault.RolledBack? {
        return false;
      }
      var known := Exists(t.globalId);
      if known {
        Update(t);
      } else {
        var taken := IsTaken(cardId);
        if taken {
          return false;
        }
        cards := cards + [NewCard(t, cardId)];
      }
      ok := !fault.NotReadBack?;
    }
  }

  // ---- what the projection keeps ----

  /** At most one card per identity. */
  ghost predicate Unique(cards: seq<Card>) {
    forall i, j :: 0 <= i < j < |cards| && cards[i].globalId.Some? ==> cards[i].globalId != cards[j].globalId
  }

  predicate ShowsValue(shown: Option<string>, sent: Option<string>) {
    sent.Some? ==> shown == sent
  }

  /** A card shows a task: the mapped status, the version, and whatever content the task carries. */
  predicate Shows(c: Card, t: Task) {
    && c.globalId == Some(t.globalId) && c.status == SyncStatusToLocal(t.status) && c.version == t.version
    && ShowsValue(Some(c.title), t.title) && ShowsValue(c.description, t.description)
    && ShowsValue(c.priority, t.priority)
  }

  predicate ShownAt(cards: seq<Card>, t: Task, i: nat) {
    i < |cards| && Shows(cards[i], t)
  }

  ghost predicate Shown(cards: seq<Card>, t: Task) {
    exists i: nat :: ShownAt(cards, t, i)
  }

  /** The projected task is shown, identities stay unique, and a task of another identity is shown as before. */
  lemma ProjectionShows(cards: seq<Card>, t: Task, cardId: string)
    requires Unique(cards)
    ensures var after := Projected(cards, t, cardId); Unique(after) && Shown(after, t)
  {
    var after := Projected(cards, t, cardId);
    if HasCard(cards, t.globalId) {
      var i :| 0 <= i < |cards| && Carries(cards[i], t.globalId);
      assert ShownAt(after, t, i);
    } else {
      forall i | 0 <= i < |cards| ensures cards[i].globalId != Some(t.globalId) {
        assert !Carries(cards[i], t.globalId);
      }
      assert ShownAt(after, t, |cards|);
    }
  }

  lemma ProjectionSpares(cards: seq<Card>, t: Task, cardId: string, other: Task)
    requires other.globalId != t.globalId && Shown(cards, other)
    ensures Shown(Projected(cards, t, cardId), other)
  {
    var i: nat :| ShownAt(cards, other, i);
    assert ShownAt(Projected(cards, t, cardId), other, i);
  }

  /** Content a task leaves out stays as the card has it; a card the projection creates carries what the task carries. */
  lemma ProjectionKeepsContent(cards: seq<Card>, t: Task, cardId: string, i: nat)
    requires var after := Projected(cards, t, cardId); i < |after| && after[i].globalId == Some(t.globalId)
    ensures var c := Projected(cards, t, cardId)[i];
      && c.status == SyncStatusToLocal(t.status) && c.version == t.version
      && (i < |cards| ==>
            && c.title == (if t.title.Some? then t.title.value else cards[i].title)
            && c.description == (if t.description.Some? then t.description else cards[i].description)
            && c.priority == (if t.priority.Some? then t.priority else cards[i].priority))
      && (i >= |cards| ==>
            && c.cardId == cardId && c.title == (if t.title.Some? then t.title.value else "")
            && c.description == t.description && c.priority == t.priority)
  {
    if i < |cards| && !HasCard(cards, t.globalId) {
      assert Carries(cards[i], t.globalId);
    }
  }

  /** A card is created exactly when none carries the identity. */
  lemma ProjectionCreates(cards: seq<Card>, t: Task, cardId: string)
    ensures |Projected(cards, t, cardId)| == |cards| + 1 <==> forall c :: c in cards ==> c.globalId != Some(t.globalId)
  {
    if HasCard(cards, t.globalId) {
      var i :| 0 <= i < |cards| && Carries(cards[i], t.globalId);
      assert cards[i] in cards;
    } else {
      forall c | c in cards ensures c.globalId != Some(t.globalId) {
        var i :| 0 <= i < |cards| && cards[i] == c;
        assert !Carries(cards[i], t.globalId);
      }
    }
  }

  /** Local display ids and identities are never rewritten, and no card disappears. */
  lemma ProjectionKeepsCards(cards: seq<Card>, t: Task, cardId: string, i: nat)
    requires i < |cards|
    ensures var after := Projected(cards, t, cardId);
            && |cards| <= |after| <= |cards| + 1
            && after[i].cardId == cards[i].cardId && after[i].globalId == cards[i].globalId
            && (cards[i].globalId != Some(t.globalId) ==> after[i] == cards[i])
  {
  }

  ghost predicate OwnIds(cards: seq<Card>) {
    forall i, j :: 0 <= i < j < |cards| ==> cards[i].cardId != cards[j].cardId
  }

  /** A projection that is not refused gives no card the display id of another. */
  lemma ProjectionKeepsOwnIds(cards: seq<Card>, t: Task, cardId: string, fault: Fault)
    requires OwnIds(cards) && !Refused(cards, t, cardId, fault)
    ensures OwnIds(Projected(cards, t, cardId))
  {
    var after := Projected(cards, t, cardId);
    forall i, j | 0 <= i < j < |after| ensures after[i].cardId != after[j].cardId {
      ProjectionKeepsCards(cards, t, cardId, i);
      if j < |cards| {
        ProjectionKeepsCards(cards, t, cardId, j);
      }
    }
  }

  /** Applying a projection again changes nothing, whatever display id the second attempt would have used. */
  lemma ProjectionIsIdempotent(cards: seq<Card>, t: Task, cardId: string, cardId': string)
    ensures Projected(Projected(cards, t, cardId), t, cardId') == Projected(cards, t, cardId)
  {
    var once := Projected(cards, t, cardId);
    if HasCard(cards, t.globalId) {
      var i :| 0 <= i < |cards| && Carries(cards[i], t.globalId);
      assert Carries(once[i], t.globalId);
    } else {
      assert Carries(once[|cards|], t.globalId);
      assert forall i :: 0 <= i < |cards| ==> !Carries(cards[i], t.globalId);
    }
  }
}

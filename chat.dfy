/**
 * The records the relay, the history route and the chat screen share: the
 * conversation and message documents, the choice of the counterpart
 * (`participants.find(p => p !== userId)`) and the sort by `createdAt` that both
 * the history query and the screen apply. The sort keeps ties in their original
 * order, as the client's `Array.prototype.sort` does; the database promises no
 * order of ties, so for the history query that order is one admissible choice.
 */
module Chat {
  import opened Options
  import opened Text

  type UserId = string
  type ConvId = string
  type MsgId = string

  /** A conversation document; the schema asks for at least two participants. */
  datatype Conversation = Conversation(id: ConvId, participants: seq<UserId>)

  /** A message document, and the `message:new` payload built from it.
      `createdAt` is an abstract timestamp. */
  datatype Message = Message(
    id: MsgId,
    conversationId: ConvId,
    senderId: UserId,
    text: string,
    readBy: seq<UserId>,
    createdAt: nat)

  predicate NoDuplicates(s: seq<UserId>) {
    forall i, j | 0 <= i < j < |s| :: s[i] != s[j]
  }

  /** What the message schema and the relay keep true of a stored message:
      trimmed text of 1 to 1000 characters, the sender among the readers,
      no reader twice. */
  predicate WellFormed(m: Message) {
    && IsTrimmed(m.text) && 1 <= |m.text| <= 1000
    && m.senderId in m.readBy
    && NoDuplicates(m.readBy)
  }

  /** `participants.find(p => p !== me)`: the first participant other than `me`. */
  function Counterpart(participants: seq<UserId>, me: UserId): (r: Option<UserId>)
    ensures r.None? <==> forall i | 0 <= i < |participants| :: participants[i] == me
    ensures r.Some? ==> exists i | 0 <= i < |participants| ::
              && participants[i] == r.value && r.value != me
              && forall j | 0 <= j < i :: participants[j] == me
  {
    if participants == [] then None
    else if participants[0] != me then Some(participants[0])
    else
      var r := Counterpart(participants[1..], me);
      if r.None? then r else FirstOtherShift(participants, me, r.value); r
  }

  /** A first other participant of `p[1..]`, after a leading `me`, is the first other one of `p`. */
  lemma FirstOtherShift(p: seq<UserId>, me: UserId, v: UserId)
    requires p != [] && p[0] == me
    requires exists i | 0 <= i < |p[1..]| :: p[1..][i] == v && v != me && forall j | 0 <= j < i :: p[1..][j] == me
    ensures exists i | 0 <= i < |p| :: p[i] == v && v != me && forall j | 0 <= j < i :: p[j] == me
  {
    var i :| 0 <= i < |p[1..]| && p[1..][i] == v && v != me && forall j | 0 <= j < i :: p[1..][j] == me;
    forall j | 0 <= j < i + 1 ensures p[j] == me {
      if j > 0 { assert p[j] == p[1..][j - 1]; }
    }
    assert p[i + 1] == v;
  }

  /** In a two-party conversation the counterpart of either party is the other one. */
  lemma CounterpartOfPair(a: UserId, b: UserId)
    requires a != b
    ensures Counterpart([a, b], a) == Some(b)
    ensures Counterpart([a, b], b) == Some(a)
  {
    assert [a, b][1..] == [b];
  }

  // ---------------------------------------------------------------------------
  // Ordering by createdAt

  predicate Sorted(s: seq<Message>) {
    forall i, j | 0 <= i < j < |s| :: s[i].createdAt <= s[j].createdAt
  }

  /** Places `m` after every element whose timestamp is not later than its own. */
  function Insert(s: seq<Message>, m: Message): (r: seq<Message>)
    ensures multiset(r) == multiset(s) + multiset{m}
    ensures Sorted(s) ==> Sorted(r)
  {
    if s == [] || s[|s| - 1].createdAt <= m.createdAt then s + [m]
    else
      var init, last := s[..|s| - 1], s[|s| - 1];
      assert s == init + [last];
      var front := Insert(init, m);
      SnocMultiset(init, last, front, m);
      if Sorted(s) then
        BoundedBy(init, m, front, last);
        SortedSnoc(front, last);
        front + [last]
      else front + [last]
  }

  lemma SnocMultiset(init: seq<Message>, last: Message, front: seq<Message>, m: Message)
    requires multiset(front) == multiset(init) + multiset{m}
    ensures multiset(front + [last]) == multiset(init + [last]) + multiset{m}
  {
  }

  lemma SortedSnoc(s: seq<Message>, m: Message)
    requires Sorted(s)
    requires forall i | 0 <= i < |s| :: s[i].createdAt <= m.createdAt
    ensures Sorted(s + [m])
  {
  }

  /** Every element of `front`, a permutation of `init + [m]`, is no later than `last`. */
  lemma BoundedBy(init: seq<Message>, m: Message, front: seq<Message>, last: Message)
    requires Sorted(init + [last]) && m.createdAt <= last.createdAt
    requires multiset(front) == multiset(init) + multiset{m}
    ensures forall i | 0 <= i < |front| :: front[i].createdAt <= last.createdAt
  {
    forall i | 0 <= i < |front| ensures front[i].createdAt <= last.createdAt {
      var x := front[i];
      assert x in multiset(front);
      if x != m {
        assert x in multiset(init);
        var k :| 0 <= k < |init| && init[k] == x;
        assert (init + [last])[k] == x && (init + [last])[|init|] == last;
      }
    }
  }

  /** A sort ascending by `createdAt` that keeps ties in their original order. */
  function SortByCreatedAt(s: seq<Message>): (r: seq<Message>)
    ensures Sorted(r)
    ensures multiset(r) == multiset(s)
  {
    if s == [] then []
    else
      assert s == s[..|s| - 1] + [s[|s| - 1]];
      Insert(SortByCreatedAt(s[..|s| - 1]), s[|s| - 1])
  }

  /** A message no earlier than the last one goes at the end. */
  lemma InsertAtEnd(s: seq<Message>, m: Message)
    requires s != [] && s[|s| - 1].createdAt <= m.createdAt
    ensures Insert(s, m) == s + [m]
  {
  }

  /** Sorting a list is sorting all but its last element and inserting that one. */
  lemma SortSnoc(s: seq<Message>, m: Message)
    ensures SortByCreatedAt(s + [m]) == Insert(SortByCreatedAt(s), m)
  {
    assert (s + [m])[..|s|] == s;
  }

  /** A message no earlier than any other goes after all of them, also after
      those with the same timestamp: ties keep their original order. */
  lemma LatestGoesLast(s: seq<Message>, m: Message)
    requires forall i | 0 <= i < |s| :: s[i].createdAt <= m.createdAt
    ensures SortByCreatedAt(s + [m]) == SortByCreatedAt(s) + [m]
  {
    SortSnoc(s, m);
    var r := SortByCreatedAt(s);
    if r != [] {
      assert r[|r| - 1] in multiset(s);
      InsertAtEnd(r, m);
    }
  }

  /** Sorting a sorted list changes nothing. */
  lemma {:induction false} SortSorted(s: seq<Message>)
    requires Sorted(s)
    ensures SortByCreatedAt(s) == s
  {
    if s != [] {
      var init := s[..|s| - 1];
      SortSorted(init);
      assert s == init + [s[|s| - 1]];
    }
  }

  /** Appending to a sorted list and sorting is inserting in place. */
  lemma SortAppend(s: seq<Message>, m: Message)
    requires Sorted(s)
    ensures SortByCreatedAt(s + [m]) == Insert(s, m)
  {
    assert (s + [m])[..|s + [m]| - 1] == s;
    SortSorted(s);
  }

  // ---------------------------------------------------------------------------
  // Distinct message ids

  function Ids(s: seq<Message>): set<MsgId> {
    set i | 0 <= i < |s| :: s[i].id
  }

  predicate DistinctIds(s: seq<Message>) {
    forall i, j | 0 <= i < j < |s| :: s[i].id != s[j].id
  }

  lemma IdsAppend(s: seq<Message>, m: Message)
    ensures Ids(s + [m]) == Ids(s) + {m.id}
    ensures DistinctIds(s) && m.id !in Ids(s) ==> DistinctIds(s + [m])
  {
    var t := s + [m];
    forall x | x in Ids(t) ensures x in Ids(s) + {m.id} {
      var i :| 0 <= i < |t| && t[i].id == x;
      if i < |s| { assert s[i].id == x; }
    }
    forall x | x in Ids(s) + {m.id} ensures x in Ids(t) {
      if x == m.id { assert t[|s|].id == x; }
      else { var i :| 0 <= i < |s| && s[i].id == x; assert t[i].id == x; }
    }
    if DistinctIds(s) && m.id !in Ids(s) {
      forall i, j | 0 <= i < j < |t| ensures t[i].id != t[j].id {
        if j == |s| { assert t[i].id == s[i].id; }
      }
    }
  }

  lemma {:induction false} InsertIds(s: seq<Message>, m: Message)
    ensures Ids(Insert(s, m)) == Ids(s) + {m.id}
    ensures DistinctIds(s) && m.id !in Ids(s) ==> DistinctIds(Insert(s, m))
  {
    if s == [] || s[|s| - 1].createdAt <= m.createdAt {
      IdsAppend(s, m);
    } else {
      var init, last := s[..|s| - 1], s[|s| - 1];
      assert s == init + [last];
      IdsAppend(init, last);
      InsertIds(init, m);
      IdsAppend(Insert(init, m), last);
      if DistinctIds(s) && m.id !in Ids(s) {
        assert DistinctIds(init);
      }
    }
  }

  /** Sorting keeps the set of ids, and keeps them distinct. */
  lemma {:induction false} SortIds(s: seq<Message>)
    ensures Ids(SortByCreatedAt(s)) == Ids(s)
    ensures DistinctIds(s) ==> DistinctIds(SortByCreatedAt(s))
  {
    if s != [] {
      var init, last := s[..|s| - 1], s[|s| - 1];
      assert s == init + [last];
      SortIds(init);
      IdsAppend(init, last);
      InsertIds(SortByCreatedAt(init), last);
      if DistinctIds(s) {
        assert DistinctIds(init);
      }
    }
  }
}

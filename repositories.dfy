/** The message store and its history query. */
module Repositories {
  import opened Entities

  /** A message belongs in the history of `conversationId`: it was posted
      there and has not been soft-deleted. */
  predicate Visible(m: Message, conversationId: int) {
    m.conversationId == conversationId && !m.isDeleted
  }

  /** The query's `Where` step: the visible messages of one conversation,
      in store order. Each message is kept exactly as often as the store
      holds it when it is visible, and dropped otherwise. */
  function Where(store: seq<Message>, conversationId: int): (r: seq<Message>)
    ensures forall i :: 0 <= i < |r| ==> Visible(r[i], conversationId)
    ensures forall m :: multiset(r)[m] == if Visible(m, conversationId) then multiset(store)[m] else 0
  {
    if store == [] then []
    else
      var last := store[|store| - 1];
      assert store == store[..|store| - 1] + [last];
      Where(store[..|store| - 1], conversationId)
        + (if Visible(last, conversationId) then [last] else [])
  }

  /** Some stored message already carries the identity `id`. */
  predicate IdTaken(store: seq<Message>, id: int) {
    exists i :: 0 <= i < |store| && store[i].id == id
  }

  /** Identity is the store's key: no two stored messages share it. */
  predicate UniqueIds(store: seq<Message>) {
    forall i, j :: 0 <= i < j < |store| ==> store[i].id != store[j].id
  }

  /** The outcome of persisting a message: saved, or refused because its
      identity is already a key of the store. */
  datatype SaveResult = Saved(message: Message) | KeyConflict

  /** Oldest to newest: creation timestamps never decrease along `s`. */
  predicate SortedByCreatedAt(s: seq<Message>) {
    forall i, j :: 0 <= i < j < |s| ==> s[i].createdAt <= s[j].createdAt
  }

  /** Places `m` in the sorted sequence `s`, ahead of the first message
      that is not older than it. */
  function InsertByCreatedAt(m: Message, s: seq<Message>): (r: seq<Message>)
    requires SortedByCreatedAt(s)
    ensures SortedByCreatedAt(r)
    ensures multiset(r) == multiset(s) + multiset{m}
  {
    if s == [] then [m]
    else if m.createdAt <= s[0].createdAt then [m] + s
    else
      var rest := InsertByCreatedAt(m, s[1..]);
      assert s == [s[0]] + s[1..];
      assert forall j :: 0 <= j < |rest| ==> s[0].createdAt <= rest[j].createdAt by {
        forall j | 0 <= j < |rest| ensures s[0].createdAt <= rest[j].createdAt {
          assert rest[j] in multiset(rest);
          assert rest[j] in s[1..] || rest[j] == m;
        }
      }
      [s[0]] + rest
  }

  /** The query's `OrderBy(CreatedAt)` step. This is one admissible
      ordering; the contract promises no order among equal timestamps. */
  function SortByCreatedAt(s: seq<Message>): (r: seq<Message>)
    ensures SortedByCreatedAt(r)
    ensures multiset(r) == multiset(s)
  {
    if s == [] then []
    else
      assert s == [s[0]] + s[1..];
      InsertByCreatedAt(s[0], SortByCreatedAt(s[1..]))
  }

  /** Appending one message to the store appends it to the filtered
      list when it is visible, and leaves that list alone otherwise. */
  lemma WhereAppendOne(store: seq<Message>, m: Message, conversationId: int)
    ensures Where(store + [m], conversationId)
         == Where(store, conversationId) + (if Visible(m, conversationId) then [m] else [])
  {
    assert (store + [m])[..|store|] == store;
  }

  /** No two messages of `s` share a creation timestamp. */
  predicate DistinctTimestamps(s: seq<Message>) {
    forall i, j :: 0 <= i < j < |s| ==> s[i].createdAt != s[j].createdAt
  }

  /** Two sorted lists holding the same messages, without timestamp ties,
      start with the same message. */
  lemma SameOldest(a: seq<Message>, b: seq<Message>)
    requires SortedByCreatedAt(a) && SortedByCreatedAt(b)
    requires multiset(a) == multiset(b)
    requires DistinctTimestamps(a)
    requires a != []
    ensures b != [] && a[0] == b[0]
  {
    assert a[0] in multiset(b) && b[0] in multiset(b);
    var k :| 0 <= k < |a| && a[k] == b[0];
    var l :| 0 <= l < |b| && b[l] == a[0];
    assert a[0].createdAt <= a[k].createdAt;
    assert b[0].createdAt <= b[l].createdAt;
  }

  /** Dropping the first message of a list keeps the rest of its
      messages, each as often as before. */
  lemma TailMultiset(s: seq<Message>)
    requires s != []
    ensures multiset(s[1..]) == multiset(s) - multiset{s[0]}
  {
    assert s == [s[0]] + s[1..];
  }

  /** Dropping the first message keeps a list sorted and free of ties. */
  lemma TailKeepsOrder(s: seq<Message>)
    requires s != [] && SortedByCreatedAt(s) && DistinctTimestamps(s)
    ensures SortedByCreatedAt(s[1..]) && DistinctTimestamps(s[1..])
  {
    var t := s[1..];
    forall i, j | 0 <= i < j < |t| ensures t[i].createdAt < t[j].createdAt {
      assert t[i] == s[i + 1] && t[j] == s[j + 1];
    }
  }

  /** Two answers sorted by timestamp that hold the same messages are the
      same list whenever no two of those messages share a timestamp: the
      only freedom the ordering leaves is among ties. */
  lemma {:induction false} SortedOrderIsUniqueWithDistinctTimestamps(a: seq<Message>, b: seq<Message>)
    requires SortedByCreatedAt(a) && SortedByCreatedAt(b)
    requires multiset(a) == multiset(b)
    requires DistinctTimestamps(a)
    ensures a == b
  {
    if a != [] {
      SameOldest(a, b);
      TailMultiset(a);
      TailMultiset(b);
      TailKeepsOrder(a);
      assert SortedByCreatedAt(b[1..]) by {
        forall i, j | 1 <= i < j < |b| ensures b[i].createdAt <= b[j].createdAt { }
      }
      SortedOrderIsUniqueWithDistinctTimestamps(a[1..], b[1..]);
      assert a == [a[0]] + a[1..] && b == [b[0]] + b[1..];
    }
  }

  /** The store behind the repository: an in-memory sequence of every
      message ever added, deleted ones included. */
  class MessageRepository {
    var messages: seq<Message>

    constructor (initial: seq<Message>)
      ensures messages == initial
    {
      messages := initial;
    }

    /** Persists `message` and hands it back unchanged. A message whose
        identity is already stored is refused and the store is left as it
        was, since the identity is the store's key. */
    method Add(message: Message) returns (result: SaveResult)
      modifies this
      ensures result == if IdTaken(old(messages), message.id) then KeyConflict else Saved(message)
      ensures messages == if result.KeyConflict? then old(messages) else old(messages) + [message]
      ensures UniqueIds(old(messages)) ==> UniqueIds(messages)
      ensures forall c :: c != message.conversationId ==>
        multiset(GetByConversationId(c)) == old(multiset(GetByConversationId(c)))
    {
      ghost var before := messages;
      if IdTaken(messages, message.id) {
        result := KeyConflict;
      } else {
        messages := messages + [message];
        result := Saved(message);
        if UniqueIds(before) {
          FreshIdKeepsIdsUnique(before, message);
        }
        forall c | c != message.conversationId
          ensures multiset(GetByConversationId(c)) == multiset(SortByCreatedAt(Where(before, c)))
        {
          AddToOtherConversationKeepsHistory(before, message, c);
        }
      }
    }

    /** All non-deleted messages of `conversationId`, oldest first: exactly
        the visible messages of the store, each as often as it is stored. */
    function GetByConversationId(conversationId: int): (r: seq<Message>)
      reads this
      ensures SortedByCreatedAt(r)
      ensures multiset(r) == multiset(Where(messages, conversationId))
      ensures forall m :: m in r <==> m in messages && Visible(m, conversationId)
      ensures forall i :: 0 <= i < |r| ==> Visible(r[i], conversationId)
    {
      var q := SortByCreatedAt(Where(messages, conversationId));
      assert forall m :: m in q <==> m in multiset(Where(messages, conversationId));
      q
    }
  }

  /** Appending a message whose identity is not yet stored keeps the
      identities of the store unique. */
  lemma FreshIdKeepsIdsUnique(store: seq<Message>, m: Message)
    requires UniqueIds(store) && !IdTaken(store, m.id)
    ensures UniqueIds(store + [m])
  {
    var s := store + [m];
    forall i, j | 0 <= i < j < |s| ensures s[i].id != s[j].id {
      if j == |store| {
        assert s[i] == store[i];
      } else {
        assert s[i] == store[i] && s[j] == store[j];
      }
    }
  }

  /** Appending a message of another conversation leaves the history of
      `conversationId` holding exactly the same messages. */
  lemma AddToOtherConversationKeepsHistory(store: seq<Message>, m: Message, conversationId: int)
    requires m.conversationId != conversationId
    ensures multiset(SortByCreatedAt(Where(store + [m], conversationId)))
         == multiset(SortByCreatedAt(Where(store, conversationId)))
  {
    WhereAppendOne(store, m, conversationId);
    assert Where(store, conversationId) + [] == Where(store, conversationId);
  }

  /** Appending a visible message of `conversationId` adds exactly that one
      message to its history and changes nothing else in it. */
  lemma AddToSameConversationExtendsHistory(store: seq<Message>, m: Message)
    requires !m.isDeleted
    ensures multiset(SortByCreatedAt(Where(store + [m], m.conversationId)))
         == multiset(SortByCreatedAt(Where(store, m.conversationId))) + multiset{m}
    ensures m in SortByCreatedAt(Where(store + [m], m.conversationId))
  {
    WhereAppendOne(store, m, m.conversationId);
    var r := SortByCreatedAt(Where(store + [m], m.conversationId));
    assert m in multiset(r);
  }
}

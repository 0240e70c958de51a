/** The message service: sends messages into the store and reads a
    conversation's history back as transfer objects. */
module Services {
  import opened Entities
  import opened Dtos
  import opened Repositories

  /** The transfer object of a message: a field-by-field copy, so the
      object and the delete flag together give back the message. */
  function MapToDto(m: Message): (d: MessageDto)
    ensures Message(d.messageId, d.conversationId, d.senderId, d.content, d.createdAt, m.isDeleted) == m
  {
    MessageDto(m.id, m.conversationId, m.senderId, m.content, m.createdAt)
  }

  /** Two messages look the same to callers exactly when they differ in
      nothing but the delete flag. */
  lemma MapToDtoForgetsOnlyDeleteFlag(m1: Message, m2: Message)
    ensures MapToDto(m1) == MapToDto(m2) <==> m1 == m2.(isDeleted := m1.isDeleted)
  {
  }

  /** The `Select(MapToDto)` step: one transfer object per message, in the
      same order. */
  function MapAll(ms: seq<Message>): (ds: seq<MessageDto>)
    ensures |ds| == |ms|
    ensures forall i :: 0 <= i < |ms| ==> ds[i] == MapToDto(ms[i])
  {
    if ms == [] then [] else [MapToDto(ms[0])] + MapAll(ms[1..])
  }

  /** Mapping a list sorted by creation time gives transfer objects in the
      same time order. */
  lemma MapAllPreservesOrder(q: seq<Message>)
    requires SortedByCreatedAt(q)
    ensures forall i, j :: 0 <= i < j < |q| ==> MapAll(q)[i].createdAt <= MapAll(q)[j].createdAt
  {
  }

  /** Mapping messages of one conversation gives transfer objects of that
      conversation. */
  lemma MapAllKeepsConversation(q: seq<Message>, conversationId: int)
    requires forall i :: 0 <= i < |q| ==> q[i].conversationId == conversationId
    ensures forall i :: 0 <= i < |q| ==> MapAll(q)[i].conversationId == conversationId
  {
  }

  /** Every message of the list has its transfer object in the mapped list. */
  lemma MapAllListsEvery(q: seq<Message>)
    ensures forall m :: m in q ==> MapToDto(m) in MapAll(q)
  {
    forall m | m in q ensures MapToDto(m) in MapAll(q) {
      var i :| 0 <= i < |q| && q[i] == m;
      assert MapAll(q)[i] == MapToDto(m);
    }
  }

  /** A freshly sent, non-deleted message shows up in the next history read
      of its conversation. */
  lemma SentMessageIsListed(store: seq<Message>, m: Message)
    requires !m.isDeleted
    ensures MapToDto(m) in MapAll(SortByCreatedAt(Where(store + [m], m.conversationId)))
  {
    AddToSameConversationExtendsHistory(store, m);
    var q := SortByCreatedAt(Where(store + [m], m.conversationId));
    var i :| 0 <= i < |q| && q[i] == m;
    assert MapAll(q)[i] == MapToDto(m);
  }

  class MessageService {
    const repository: MessageRepository

    constructor (repository: MessageRepository)
      ensures this.repository == repository
    {
      this.repository := repository;
    }

    /** Stores a new message built from `request`, with the fresh identity
        `id` and the creation time `now`, and returns its transfer object.
        The identity is fresh, as a newly generated Guid is, so the store
        accepts the message.
        The store grows by exactly that message, and the message is listed
        by every later history read of its conversation. */
    method SendMessage(request: SendMessageRequest, id: int, now: int) returns (dto: MessageDto)
      requires !IdTaken(repository.messages, id)
      modifies repository
      ensures repository.messages == old(repository.messages)
        + [Message(id, request.conversationId, request.senderId, request.content, now, false)]
      ensures UniqueIds(old(repository.messages)) ==> UniqueIds(repository.messages)
      ensures dto == MessageDto(id, request.conversationId, request.senderId, request.content, now)
      ensures forall paging :: dto in GetMessages(request.conversationId, paging)
    {
      var message := Message(id, request.conversationId, request.senderId, request.content, now, false);
      ghost var before := repository.messages;
      var result := repository.Add(message);
      dto := MapToDto(result.message);
      SentMessageIsListed(before, message);
    }

    /** The history of `conversationId` as transfer objects: one per message
        the repository lists, in the same order, so oldest first. The paging
        request is accepted and not used. */
    function GetMessages(conversationId: int, paging: PagingRequest): (r: seq<MessageDto>)
      reads repository
      ensures |r| == |repository.GetByConversationId(conversationId)|
      ensures forall i :: 0 <= i < |r| ==> r[i] == MapToDto(repository.GetByConversationId(conversationId)[i])
      ensures forall i, j :: 0 <= i < j < |r| ==> r[i].createdAt <= r[j].createdAt
      ensures forall i :: 0 <= i < |r| ==> r[i].conversationId == conversationId
      ensures forall m :: m in repository.messages && Visible(m, conversationId) ==> MapToDto(m) in r
    {
      var q := repository.GetByConversationId(conversationId);
      MapAllPreservesOrder(q);
      MapAllListsEvery(q);
      MapAllKeepsConversation(q, conversationId);
      MapAll(q)
    }
  }

  /** The history read does not depend on the paging request. */
  lemma PagingIsIgnored(service: MessageService, conversationId: int, p1: PagingRequest, p2: PagingRequest)
    ensures service.GetMessages(conversationId, p1) == service.GetMessages(conversationId, p2)
  {
  }

  /** Any answer the history query may give for a store holding two visible
      messages of one conversation, the first older than the second, is
      those two messages in store order. */
  lemma TwoMessageHistory(m1: Message, m2: Message, listed: seq<Message>)
    requires !m1.isDeleted && !m2.isDeleted && m2.conversationId == m1.conversationId
    requires m1.createdAt < m2.createdAt
    requires SortedByCreatedAt(listed)
    requires multiset(listed) == multiset(Where([m1, m2], m1.conversationId))
    ensures listed == [m1, m2]
  {
    var c := m1.conversationId;
    assert multiset(listed) == multiset([m1, m2]) by {
      forall m ensures multiset(listed)[m] == multiset([m1, m2])[m] {
        if !Visible(m, c) {
          assert m != m1 && m != m2;
        }
      }
    }
    SortedOrderIsUniqueWithDistinctTimestamps([m1, m2], listed);
  }
}

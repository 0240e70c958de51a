# Kotoba message store — a Dafny model

Kotoba is a real-time chat backend. This project models its message
persistence and history path: the message repository, which appends
messages to the store and answers "all non-deleted messages of a
conversation, oldest first", and the message service above it, which turns a
send request into a stored message and maps stored messages to transfer
objects (`MessageDto`).

Layout:

- `entities.dfy` — module `Entities`: the `Message` entity (identity,
  conversation, sender, content, creation time, soft-delete flag).
- `dtos.dfy` — module `Dtos`: `MessageDto`, `SendMessageRequest`,
  `PagingRequest`.
- `repositories.dfy` — module `Repositories`: the query's filter (`Where`)
  and ordering (`SortByCreatedAt`) as functions, the class
  `MessageRepository` that holds the store as a `seq<Message>` field, and
  the lemmas about how an append changes a conversation's history.
- `services.dfy` — module `Services`: `MapToDto`, the `Select` step
  (`MapAll`), the class `MessageService`, and a two-message history lemma.

Modelling choices:

- A `Guid` is an opaque `int`. A `DateTime` is an `int` tick count.
- `Guid.NewGuid()` and `DateTime.UtcNow` become the parameters `id` and
  `now` of `SendMessage`.
- The database context never declares the `Messages` set that the
  repository uses (src/Kotoba.Infrastructure/Data/ApplicationDbContext.cs:14-18
  is only a commented example). The store is therefore an abstract
  in-memory sequence, the field `MessageRepository.messages`.
- The history query is pure, so `GetByConversationId` is a function that
  reads the store and cannot change it.
- SQL `ORDER BY` is not stable on ties. The query's contract therefore
  promises only that the answer is sorted by creation time and is a
  permutation of the filtered store. The body uses one admissible order, an
  insertion sort. `SortedOrderIsUniqueWithDistinctTimestamps` shows that
  ties are the only freedom left.
- Ties are not broken by message identity: the code orders by creation
  time only. It also ignores the paging request. The model follows the
  code on both points.
- The repository interface comment says `AddAsync` returns the message
  "with generated Id/CreatedAt". On the service's path the repository
  generates neither: the service fills both fields before the append, and
  the repository returns the message unchanged. The model follows that
  path.
- The message identity is the store's key, as it is for an Entity
  Framework entity named `Id`. `Add` refuses a message whose identity is
  already stored (`KeyConflict`) and leaves the store unchanged, where the
  code's save throws. `SendMessage` requires a fresh identity, which
  `Guid.NewGuid()` provides at the only call site.
- `SendMessageAsync` is declared to return a nullable `MessageDto?`, but no
  path returns null. `SendMessage` returns a plain `MessageDto`.

## Model

| member | source | states |
|---|---|---|
| `Repositories.Visible` | src/Kotoba.Infrastructure/Implementations/Repositories/MessageRepository.cs:32 | the `Where` condition: the message belongs to the conversation and is not deleted |
| `Repositories.MessageRepository.constructor` | src/Kotoba.Infrastructure/Implementations/Repositories/MessageRepository.cs:17-20 | the repository starts on the given store |
| `Repositories.MessageRepository.Add` | src/Kotoba.Infrastructure/Implementations/Repositories/MessageRepository.cs:22-27 | a message with a fresh identity is saved and returned unchanged, and the store becomes the old store plus that one message; a message whose identity is already stored is refused and the store is unchanged; unique identities stay unique; every other conversation's history holds the same messages as before |
| `Repositories.FreshIdKeepsIdsUnique` | src/Kotoba.Infrastructure/Implementations/Repositories/MessageRepository.cs:24-25 | appending a message with a fresh identity keeps the store's identities unique |
| `Repositories.MessageRepository.GetByConversationId` | src/Kotoba.Infrastructure/Implementations/Repositories/MessageRepository.cs:29-35 | the answer is sorted oldest to newest; it is a permutation of the store's visible messages of the conversation; a message is in it iff it is in the store, belongs to the conversation and is not deleted; reads the store only |
| `Repositories.Where` | src/Kotoba.Infrastructure/Implementations/Repositories/MessageRepository.cs:32 | every kept message belongs to the conversation and is not deleted; each visible message is kept exactly as often as the store holds it, every other one is dropped |
| `Repositories.SortByCreatedAt` | src/Kotoba.Infrastructure/Implementations/Repositories/MessageRepository.cs:33 | the result is sorted by creation time and is a permutation of the input |
| `Repositories.InsertByCreatedAt` | src/Kotoba.Infrastructure/Implementations/Repositories/MessageRepository.cs:33 | inserting into a sorted list keeps it sorted and adds exactly the one message |
| `Repositories.WhereAppendOne` | src/Kotoba.Infrastructure/Implementations/Repositories/MessageRepository.cs:24-32 | appending one message to the store appends it to the filtered list when it is visible in the conversation, and leaves the list unchanged otherwise |
| `Repositories.SortedOrderIsUniqueWithDistinctTimestamps` | src/Kotoba.Application/Interfaces/Repositories/IMessageRepository.cs:15 | two sorted answers with the same messages are equal when no two messages share a timestamp |
| `Repositories.AddToOtherConversationKeepsHistory` | src/Kotoba.Infrastructure/Implementations/Repositories/MessageRepository.cs:24-32 | appending a message of another conversation leaves a conversation's history holding the same messages, as often as before |
| `Repositories.AddToSameConversationExtendsHistory` | src/Kotoba.Infrastructure/Implementations/Repositories/MessageRepository.cs:24-33 | appending a non-deleted message adds exactly that message to its conversation's history |
| `Services.MapToDto` | src/Kotoba.Infrastructure/Implementations/Services/MessageService.cs:42-49 | the transfer object with the message's delete flag gives back the message: every other field is copied unchanged |
| `Services.MapToDtoForgetsOnlyDeleteFlag` | src/Kotoba.Infrastructure/Implementations/Services/MessageService.cs:42-49 | two messages map to the same transfer object iff they differ at most in the delete flag |
| `Services.MapAll` | src/Kotoba.Infrastructure/Implementations/Services/MessageService.cs:39 | one transfer object per message, same length, same order, each the message's `MapToDto` |
| `Services.MapAllPreservesOrder` | src/Kotoba.Infrastructure/Implementations/Services/MessageService.cs:39 | mapping a list sorted by creation time gives transfer objects in the same time order |
| `Services.MapAllKeepsConversation` | src/Kotoba.Infrastructure/Implementations/Services/MessageService.cs:39 | mapping messages of one conversation gives transfer objects of that conversation |
| `Services.MapAllListsEvery` | src/Kotoba.Infrastructure/Implementations/Services/MessageService.cs:39 | every message of the list has its transfer object in the mapped list |
| `Services.SentMessageIsListed` | src/Kotoba.Infrastructure/Implementations/Services/MessageService.cs:23-39 | a stored non-deleted message appears in the next history read of its conversation |
| `Services.MessageService.constructor` | src/Kotoba.Infrastructure/Implementations/Services/MessageService.cs:16-19 | the service works on the given repository |
| `Services.MessageService.SendMessage` | src/Kotoba.Infrastructure/Implementations/Services/MessageService.cs:21-34 | given a fresh identity, the store grows by exactly one message carrying the request's conversation, sender and content, the given id and time, and the delete flag off; unique identities stay unique; the returned object copies that message's fields; it is listed by every later history read, whatever the paging |
| `Services.MessageService.GetMessages` | src/Kotoba.Infrastructure/Implementations/Services/MessageService.cs:36-40 | one transfer object per message the repository lists, in the same order; oldest first; all of the asked conversation; every visible stored message of it is listed |
| `Services.PagingIsIgnored` | src/Kotoba.Infrastructure/Implementations/Services/MessageService.cs:36-39 | the history read gives the same answer for any two paging requests |
| `Services.TwoMessageHistory` | src/Kotoba.Infrastructure/Implementations/Repositories/MessageRepository.cs:31-34 | any admissible answer for a store of two visible messages of one conversation, the first strictly older, is those two in store order |

## Left out

- Async/await, `SaveChangesAsync` and database round-trips: the append is one atomic step on the in-memory store.
- Concurrency between requests: the model is sequential.
- Entity Framework configuration (`ApplicationDbContext`) and the navigation properties of `Message` (conversation, sender, reactions, attachments): they hold no logic of this path.
- The `= DateTime.UtcNow` default of `Message.CreatedAt`: it reads the wall clock, and the service always sets the field.
- Controllers, SignalR broadcast and the other services (conversation, reaction, presence, typing, story, attachment, AI reply, user): outside this model.
- Paging: the code accepts a `PagingRequest` and does not use it, so the model has no page slicing.
- Soft deletion: no shown code sets `IsDeleted`; the model only filters on it.
- `Repositories.MessageRepository.GetByConversationId`: promises no order among messages with equal timestamps, because SQL `ORDER BY` on one column is not stable.
- Order among equal timestamps: `SortByCreatedAt` is a stable insertion sort, so the model returns tied messages in store order on every read. No contract promises that order: the history contracts and the lemmas about an append speak of sortedness and of which messages are listed (multisets), never of the order among ties.
- Entity Framework's key generation: when a message arrives with an empty Guid, the framework generates a key on `Add`. The service never sends an empty Guid, so the model does not generate identities.
- `Repositories.MessageRepository.Add`: a save that fails for other reasons (an unreachable database, a timeout) is not modelled; only the key conflict is.

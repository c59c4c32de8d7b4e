# Ownership-scoped item store

A model of the `/items` router of a small Express back end: four handlers
(`GET /`, `POST /`, `PUT /:id`, `DELETE /:id`) over a MongoDB collection of
items. Each item carries a `name`, a `description` and a `userId`, which is
its owner. Each handler runs after the `authenticateToken` middleware and uses
the identity it attaches (`req.userId`) as the only source of ownership:

- list filters by it;
- create stamps it on the new item;
- update and delete match on the compound `(id, owner)` key in one call.

Both "no such id" and "not yours" give the same 404.

The model has three modules:

- `ItemModel` (`item_model.dfy`) holds the collection as a value. The
  collection is a `map` from item ids to items, and a counter stands in for
  ObjectId generation. `Step` is one handler applied atomically to the store
  for an authenticated caller, giving the new store and the HTTP response.
  `Run` applies a sequence of requests. Also here:
  - `Field`, `Truthy` and `FieldsPresent` model
    `const { name, description } = req.body` and the guard
    `!name || !description`.
  - `Message` gives the `error` string sent with each failure.
  - `Matches` models the filter `{ _id: id, userId }`.
  - `OwnedBy` models the filter `{ userId }`.
  - `Status` gives the status code each response is sent with.
- `ItemRoutes` (`item_routes.dfy`) holds the handlers as methods of the class
  `ItemCollection`. The class owns the collection as mutable fields
  (`items`, `nextId`). Each method's contract states the new collection and
  the response outright, and ties both to `Step`.
- `ItemProperties` (`item_properties.dfy`) proves what the ownership
  discipline guarantees across requests and identities: non-interference
  between identities, the merged 404, delete-then-delete, create-then-list,
  that body members other than `name`/`description` are ignored, and
  isolation and ownership stability over whole request sequences.

The authentication gate is modelled only by its result. Every handler takes
the resolved caller identity as a parameter, so no handler can run without
one.

The handlers validate with JavaScript truthiness and do not trim: a name or
description of spaces only is accepted. The model keeps that behaviour and
adds no trimming and no length check.

## Model

| member | source | states |
|---|---|---|
| ItemModel.FieldsPresent | src/routes/itemRoutes.ts:24-51 | The destructuring `const { name, description } = req.body` (lines 24, 48), read through `Field` (an absent member is undefined), and the guard `!name \|\| !description` (lines 30, 51), read through `Truthy` (JavaScript truthiness of a string or undefined). The contract ties that literal reading to a direct condition on the body: the guard does not fire exactly when both members are present and neither is "". So " " passes, and "" or an absent member gives 400. |
| ItemModel.OwnedBy | src/routes/itemRoutes.ts:15 | The filter `{ userId }`: exactly the stored items whose owner is the given identity, each with its stored contents. |
| ItemModel.Matches | src/routes/itemRoutes.ts:58 | The compound filter `{ _id: id, userId }` (lines 58 and 80) selects an id exactly when it is one of the items that the owner's own list shows. |
| ItemModel.Status | src/routes/itemRoutes.ts:16-85 | The status codes sent: 200, 201, 204, 400 or 404 (lines 16, 31, 39, 64, 68, 82, 85). A code below 300 means success. 404 is sent for the merged not-found-or-unauthorized failure and for nothing else. |
| ItemModel.Message | src/routes/itemRoutes.ts:31-82 | The `error` string sent with each failure: "Name and description are required" for the 400 (lines 31, 52) and "Item not found or unauthorized" for the merged 404 (lines 64, 82). A definition with no contract of its own. ForeignItemLooksMissing and DeleteTwice state which string a given failure carries. |
| ItemModel.Step | src/routes/itemRoutes.ts:11-90 | One handler call by an authenticated caller. A failure response leaves the store unchanged. Items of other owners stay exactly as they were. No item ever changes owner. The only item that can appear is the freshly numbered one, owned by the caller. Ids are never reused. |
| ItemModel.Run | src/routes/itemRoutes.ts:36-38 | Over any sequence of requests, every stored id stays below the id counter and the counter never goes back, so a fresh id is never one already stored. |
| ItemRoutes.ItemCollection.List | src/routes/itemRoutes.ts:11-16 | GET answers 200 with exactly the stored items whose owner is the caller, with their stored contents. An empty answer is a success. Nothing changes. |
| ItemRoutes.ItemCollection.Create | src/routes/itemRoutes.ts:23-39 | A missing or empty name or description gives 400 and no change. Otherwise exactly one item is added under an id not already stored, with the submitted name and description and the caller as owner. It answers 201 with that item, and no other item changes. |
| ItemRoutes.ItemCollection.Update | src/routes/itemRoutes.ts:46-68 | A missing or empty name or description gives 400 before any lookup, with no change. Otherwise, if an item has this id and is owned by the caller, only its name and description are replaced; id and owner are kept, and the post-update item is returned with 200. Otherwise the answer is 404 "Item not found or unauthorized" and nothing changes. |
| ItemRoutes.ItemCollection.Delete | src/routes/itemRoutes.ts:75-85 | If an item has this id and is owned by the caller, exactly that item is removed and the answer is 204. Otherwise the answer is 404 "Item not found or unauthorized" and nothing changes. |
| ItemProperties.NonInterference | src/routes/itemRoutes.ts:11-90 | Take two stores that agree on the caller's items. A list, update or delete by the caller gets the same response on both and leaves the caller's items equal on both. A create answers the same apart from the fresh id, and the same outright when the id counters agree. Other identities' items can neither be revealed nor influence the result. |
| ItemProperties.OwnedByUpdate | src/routes/itemRoutes.ts:57-61 | A step of NonInterference's proof for create and update: writing the same record under one id into two tables keeps equal their views of an owner that were equal. |
| ItemProperties.OwnedByRemove | src/routes/itemRoutes.ts:80 | A step of NonInterference's proof for delete: removing the same id from two tables keeps equal their views of an owner that were equal. |
| ItemProperties.ForeignItemLooksMissing | src/routes/itemRoutes.ts:57-84 | Update or delete of an id owned by someone else changes nothing. It gives the same response as when the id does not exist: 404 "Item not found or unauthorized", or 400 for an update with missing fields. |
| ItemProperties.DeleteTwice | src/routes/itemRoutes.ts:80-85 | A delete answers 204 exactly when the (id, owner) pair matches, and then removes just that id. Otherwise it answers 404 with the message "Item not found or unauthorized". Repeating the same delete answers that 404 and changes nothing. |
| ItemProperties.CreateThenList | src/routes/itemRoutes.ts:15-39 | After a successful create, the caller's list is their earlier items plus exactly the new item. The new item has a fresh id, the submitted name and description, and the caller as owner. |
| ItemProperties.OtherBodyMembersIgnored | src/routes/itemRoutes.ts:24-59 | Adding or changing any body member other than `name` and `description` (an owner or `userId` member, say) does not change a create or update at all. The owner comes only from the verified identity. |
| ItemProperties.StepKeepsOthers | src/routes/itemRoutes.ts:11-90 | No request by one identity changes the set or contents of another identity's items. |
| ItemProperties.OthersItemsSurviveRun | src/routes/itemRoutes.ts:11-90 | Any sequence of requests, none by identity B, leaves B's items exactly as they were. |
| ItemProperties.OwnerStableOverRun | src/routes/itemRoutes.ts:36-59 | Across any sequence of requests, an id handed out before the sequence that exists at the end existed at the start, with the same owner. Ownership never transfers and deleted ids never come back. |
| ItemProperties.Scenario | src/routes/itemRoutes.ts:11-85 | One life cycle, step by step. "u1" creates an item (201, owner "u1"). "u2" cannot update it (404, nothing changes). "u1" updates it (200, same id and owner). "u1" deletes it (204). "u1"'s list is then empty, and a second delete answers 404. |

## Left out

- The `authenticateToken` middleware and the login routes are not part of this model. Token parsing, JWT signature and expiry checks, and password hashing are not modelled. Every handler takes the identity the middleware resolves as a parameter.
- The `catch` branches that answer 500 (itemRoutes.ts lines 17-19, 40-42, 69-71, 86-88) are not modelled. They depend on database and driver exceptions whose effect on the collection cannot be seen.
- Mongoose and MongoDB behaviour beyond a map is not modelled:
  - ObjectId generation is a counter. Only "not an id already stored" is kept.
  - A malformed `:id` fails the ObjectId cast. Here every id is a number, so that path does not exist.
  - The schema in `src/models/Item` is not part of this model. This covers its validation and casting of non-string values.
- Request bodies are maps from member names to strings. Non-string JSON members (numbers, booleans, null, objects) are not modelled: their truthiness and their casting by the schema differ.
- ItemRoutes.ItemCollection.List: returns a map keyed by id, not an array. The order in which the database returns documents is not modelled.
- Async execution and concurrent requests are not modelled. Each handler is one atomic step. The database guarantees that for update, delete and the single-document insert (`findOneAndUpdate`, `findOneAndDelete`, `save`). For the multi-document `Item.find` of list, treating it as one atomic snapshot is an assumption of the model: a list running beside other requests may observe a mix of states.
- The id a create answers with comes from one counter shared by all identities, so a create's response shows how many creates came before it, other identities' included. An ObjectId's timestamp and counter bytes expose the same kind of information. NonInterference states this exception.
- Logging (`console.log`/`console.error`), Express routing, JSON serialisation and the response objects are not modelled. Neither is `src/app.ts`, which only mounts the routers.

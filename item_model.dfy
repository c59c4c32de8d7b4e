/**
 * The ownership-scoped item store behind the `/items` routes, as values.
 *
 * The Mongoose collection of items becomes a finite map from item ids to
 * items; each route handler becomes one atomic step of `Step` on a `Store`,
 * taking the caller identity that the token gate has already resolved and
 * producing the new store together with the HTTP response.
 */
module ItemModel {

  datatype Option<+T> = None | Some(value: T)

  /** The identity the token gate attaches to the request (`req.userId`). */
  type UserId = string

  /** Document ids; a counter stands in for ObjectId generation. */
  type ItemId = nat

  /** A stored item: the two client-supplied fields and the owner stamp. */
  datatype Item = Item(name: string, description: string, owner: UserId)

  type Table = map<ItemId, Item>

  /** The collection plus the next id the id generator hands out. */
  datatype Store = Store(items: Table, nextId: ItemId)

  /** Every stored id was handed out earlier, so `nextId` is unused. */
  ghost predicate Fresh(s: Store) {
    forall id :: id in s.items ==> id < s.nextId
  }

  /** A parsed JSON request body whose members are strings. */
  type Body = map<string, string>

  /** Destructuring one member of the body: an absent member is undefined. */
  function Field(body: Body, key: string): Option<string> {
    if key in body then Some(body[key]) else None
  }

  /**
   * JavaScript truthiness of a string-or-undefined value, the test `!x` fails:
   * undefined and the empty string are falsy, every other string is truthy,
   * whitespace-only strings included (nothing is trimmed).
   */
  predicate Truthy(field: Option<string>) {
    field.Some? && field.value != ""
  }

  /**
   * The guard `!name || !description` does not fire: read literally through
   * destructuring and truthiness, it comes down to both members being present
   * and neither being the empty string.
   */
  predicate FieldsPresent(body: Body)
    ensures FieldsPresent(body) <==>
      && "name" in body && body["name"] != ""
      && "description" in body && body["description"] != ""
  {
    Truthy(Field(body, "name")) && Truthy(Field(body, "description"))
  }

  /** The filter `{ userId }` used by list: the items of one owner, unchanged. */
  function OwnedBy(t: Table, owner: UserId): (r: Table)
    ensures forall id :: id in r <==> id in t && t[id].owner == owner
    ensures forall id :: id in r ==> r[id] == t[id]
  {
    map id | id in t && t[id].owner == owner :: t[id]
  }

  /**
   * The compound filter `{ _id: id, userId }` used by update and delete: it
   * selects exactly an item that the owner's own list shows.
   */
  predicate Matches(t: Table, id: ItemId, owner: UserId)
    ensures Matches(t, id, owner) <==> id in OwnedBy(t, owner)
  {
    id in t && t[id].owner == owner
  }

  const MissingFieldsError := "Name and description are required"
  const NotFoundError := "Item not found or unauthorized"

  datatype Request =
    | ListItems                              // GET /
    | CreateItem(body: Body)                 // POST /
    | UpdateItem(id: ItemId, body: Body)     // PUT /:id
    | DeleteItem(id: ItemId)                 // DELETE /:id

  /** The two client-visible failures; "not found" and "not yours" are one. */
  datatype Failure = MissingFields | NotFoundOrUnauthorized

  /** The `error` member of the JSON body sent with a failure. */
  function Message(f: Failure): string {
    match f
    case MissingFields => MissingFieldsError
    case NotFoundOrUnauthorized => NotFoundError
  }

  datatype Response =
    | ItemList(items: Table)
    | ItemCreated(id: ItemId, item: Item)
    | ItemUpdated(id: ItemId, item: Item)
    | NoContent
    | Error(failure: Failure)

  /**
   * The HTTP status code each response is sent with: a success code exactly
   * for the successes, and 404 for the merged not-found-or-unauthorized
   * failure and nothing else.
   */
  function Status(r: Response): (code: nat)
    ensures code in {200, 201, 204, 400, 404}
    ensures code < 300 <==> !r.Error?
    ensures code == 404 <==> r == Error(NotFoundOrUnauthorized)
  {
    match r
    case ItemList(_) => 200
    case ItemCreated(_, _) => 201
    case ItemUpdated(_, _) => 200
    case NoContent => 204
    case Error(MissingFields) => 400
    case Error(NotFoundOrUnauthorized) => 404
  }

  datatype Outcome = Outcome(store: Store, response: Response)

  /**
   * One request by an authenticated caller. The contract is the ownership
   * discipline every handler keeps: a failure changes nothing, items of other
   * owners are kept exactly, no item ever changes owner, and the only item that
   * can appear is the freshly numbered one, owned by the caller.
   */
  function Step(s: Store, caller: UserId, req: Request): (o: Outcome)
    requires Fresh(s)
    ensures Fresh(o.store) && s.nextId <= o.store.nextId
    ensures o.response.Error? ==> o.store == s
    ensures forall id :: id in s.items && s.items[id].owner != caller ==>
              id in o.store.items && o.store.items[id] == s.items[id]
    ensures forall id :: id in o.store.items ==>
              if id in s.items then o.store.items[id].owner == s.items[id].owner
              else id == s.nextId && o.store.items[id].owner == caller
  {
    match req
    case ListItems =>
      Outcome(s, ItemList(OwnedBy(s.items, caller)))
    case CreateItem(body) =>
      if !FieldsPresent(body) then
        Outcome(s, Error(MissingFields))
      else
        var item := Item(body["name"], body["description"], caller);
        Outcome(Store(s.items[s.nextId := item], s.nextId + 1), ItemCreated(s.nextId, item))
    case UpdateItem(id, body) =>
      if !FieldsPresent(body) then
        Outcome(s, Error(MissingFields))
      else if !Matches(s.items, id, caller) then
        Outcome(s, Error(NotFoundOrUnauthorized))
      else
        var item := s.items[id].(name := body["name"], description := body["description"]);
        Outcome(s.(items := s.items[id := item]), ItemUpdated(id, item))
    case DeleteItem(id) =>
      if !Matches(s.items, id, caller) then
        Outcome(s, Error(NotFoundOrUnauthorized))
      else
        Outcome(s.(items := s.items - {id}), NoContent)
  }

  /** A request made by one identity. */
  datatype Call = Call(caller: UserId, request: Request)

  /** The store after a sequence of requests, each handled atomically in turn. */
  function Run(s: Store, calls: seq<Call>): (r: Store)
    requires Fresh(s)
    ensures Fresh(r) && s.nextId <= r.nextId
    decreases |calls|
  {
    if calls == [] then s
    else Run(Step(s, calls[0].caller, calls[0].request).store, calls[1..])
  }
}

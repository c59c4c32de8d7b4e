/**
 * The four handlers of the `/items` router over an in-memory collection.
 *
 * Each handler runs after the token gate, so it receives the caller's
 * identity already resolved; every access to the collection is filtered by,
 * or stamped with, that identity. Each handler is one atomic step whose
 * effect is the one `ItemModel.Step` describes.
 */
module ItemRoutes {
  import opened ItemModel

  class ItemCollection {
    var items: Table
    var nextId: ItemId

    ghost predicate Valid()
      reads this
    {
      Fresh(Store(items, nextId))
    }

    /** The collection as a value. */
    function State(): Store
      reads this
    {
      Store(items, nextId)
    }

    constructor ()
      ensures Valid() && items == map[] && nextId == 0
    {
      items := map[];
      nextId := 0;
    }

    /** GET `/`: the caller's items, and only those; an empty answer is a success. */
    method List(caller: UserId) returns (r: Response)
      requires Valid()
      ensures r.ItemList? && Status(r) == 200
      ensures forall id :: id in r.items <==> id in items && items[id].owner == caller
      ensures forall id :: id in r.items ==> r.items[id] == items[id]
      ensures r == Step(State(), caller, ListItems).response
    {
      r := ItemList(OwnedBy(items, caller));
    }

    /**
     * POST `/`: rejects a missing or empty name or description with 400;
     * otherwise stores one new item under a fresh id, owned by the caller
     * whatever the body says, and answers 201 with it.
     */
    method Create(caller: UserId, body: Body) returns (r: Response)
      requires Valid()
      modifies this
      ensures Valid()
      ensures !FieldsPresent(body) ==>
                r == Error(MissingFields) && items == old(items) && nextId == old(nextId)
      ensures FieldsPresent(body) ==>
                && r.ItemCreated? && Status(r) == 201
                && r.id !in old(items)
                && r.item == Item(body["name"], body["description"], caller)
                && items == old(items)[r.id := r.item]
      ensures Outcome(State(), r) == Step(old(State()), caller, CreateItem(body))
    {
      var name, description := Field(body, "name"), Field(body, "description");
      if !Truthy(name) || !Truthy(description) {
        r := Error(MissingFields);
        return;
      }
      var item := Item(name.value, description.value, caller);
      var id := nextId;
      nextId := nextId + 1;
      items := items[id := item];
      r := ItemCreated(id, item);
    }

    /**
     * PUT `/:id`: rejects a missing or empty name or description with 400
     * before any lookup; otherwise overwrites name and description of the item
     * matching both the id and the caller and answers with the updated item,
     * or answers 404 when there is no such item, whether the id is unknown or
     * belongs to someone else.
     */
    method Update(caller: UserId, id: ItemId, body: Body) returns (r: Response)
      requires Valid()
      modifies this
      ensures Valid() && nextId == old(nextId)
      ensures !FieldsPresent(body) ==>
                r == Error(MissingFields) && items == old(items)
      ensures FieldsPresent(body) && !Matches(old(items), id, caller) ==>
                r == Error(NotFoundOrUnauthorized) && items == old(items)
      ensures FieldsPresent(body) && Matches(old(items), id, caller) ==>
                && r == ItemUpdated(id, Item(body["name"], body["description"], caller))
                && Status(r) == 200
                && items == old(items)[id := r.item]
      ensures Outcome(State(), r) == Step(old(State()), caller, UpdateItem(id, body))
    {
      var name, description := Field(body, "name"), Field(body, "description");
      if !Truthy(name) || !Truthy(description) {
        r := Error(MissingFields);
        return;
      }
      // findOneAndUpdate({ _id: id, userId }, { name, description }, { new: true })
      if id in items && items[id].owner == caller {
        var updated := items[id].(name := name.value, description := description.value);
        items := items[id := updated];
        r := ItemUpdated(id, updated);
      } else {
        r := Error(NotFoundOrUnauthorized);
      }
    }

    /**
     * DELETE `/:id`: removes the item matching both the id and the caller and
     * answers 204, or answers 404 when there is no such item, whether the id
     * is unknown or belongs to someone else.
     */
    method Delete(caller: UserId, id: ItemId) returns (r: Response)
      requires Valid()
      modifies this
      ensures Valid() && nextId == old(nextId)
      ensures Matches(old(items), id, caller) ==>
                r == NoContent && Status(r) == 204 && items == old(items) - {id}
      ensures !Matches(old(items), id, caller) ==>
                r == Error(NotFoundOrUnauthorized) && items == old(items)
      ensures Outcome(State(), r) == Step(old(State()), caller, DeleteItem(id))
    {
      // findOneAndDelete({ _id: id, userId })
      if id in items && items[id].owner == caller {
        items := items - {id};
        r := NoContent;
      } else {
        r := Error(NotFoundOrUnauthorized);
      }
    }
  }
}

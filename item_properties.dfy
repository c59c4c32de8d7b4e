/**
 * What the ownership discipline of the item routes guarantees across
 * requests and across identities.
 */
module ItemProperties {
  import opened ItemModel

  /**
   * Non-interference: what a caller sees and what their request does to their
   * own items depends only on their own items, never on what other identities
   * store. The one exception is the id a create hands out, which comes from the
   * id generator that every identity's creates advance; apart from that id a
   * create answers the same too.
   */
  lemma NonInterference(s1: Store, s2: Store, caller: UserId, req: Request)
    requires Fresh(s1) && Fresh(s2)
    requires OwnedBy(s1.items, caller) == OwnedBy(s2.items, caller)
    ensures !req.CreateItem? || s1.nextId == s2.nextId ==>
      && Step(s1, caller, req).response == Step(s2, caller, req).response
      && OwnedBy(Step(s1, caller, req).store.items, caller)
         == OwnedBy(Step(s2, caller, req).store.items, caller)
    ensures req.CreateItem? ==>
      Step(s1, caller, req).response
      == if Step(s2, caller, req).response.ItemCreated?
         then ItemCreated(s1.nextId, Step(s2, caller, req).response.item)
         else Step(s2, caller, req).response
    ensures Step(s1, caller, req).store.nextId - s1.nextId
         == Step(s2, caller, req).store.nextId - s2.nextId
  {
    var t1, t2 := s1.items, s2.items;
    match req
    case ListItems =>
    case CreateItem(body) =>
      if FieldsPresent(body) && s1.nextId == s2.nextId {
        var item := Item(body["name"], body["description"], caller);
        OwnedByUpdate(t1, t2, caller, s1.nextId, item);
      }
    case UpdateItem(id, body) =>
      if FieldsPresent(body) && Matches(t1, id, caller) {
        var item := t1[id].(name := body["name"], description := body["description"]);
        OwnedByUpdate(t1, t2, caller, id, item);
      }
    case DeleteItem(id) =>
      if Matches(t1, id, caller) {
        OwnedByRemove(t1, t2, caller, id);
      }
  }

  /**
   * A step of NonInterference: writing the same record under one id into two
   * tables keeps their views of one owner equal.
   */
  lemma OwnedByUpdate(t1: Table, t2: Table, caller: UserId, id: ItemId, item: Item)
    requires OwnedBy(t1, caller) == OwnedBy(t2, caller)
    ensures OwnedBy(t1[id := item], caller) == OwnedBy(t2[id := item], caller)
  {
  }

  /**
   * A step of NonInterference: removing the same id from two tables keeps
   * their views of one owner equal.
   */
  lemma OwnedByRemove(t1: Table, t2: Table, caller: UserId, id: ItemId)
    requires OwnedBy(t1, caller) == OwnedBy(t2, caller)
    ensures OwnedBy(t1 - {id}, caller) == OwnedBy(t2 - {id}, caller)
  {
  }

  /**
   * "Not yours" is "not found": updating or deleting another identity's item
   * answers exactly as if the id did not exist, and changes nothing.
   */
  lemma ForeignItemLooksMissing(s: Store, caller: UserId, req: Request)
    requires Fresh(s)
    requires req.UpdateItem? || req.DeleteItem?
    requires req.id in s.items && s.items[req.id].owner != caller
    ensures Step(s, caller, req).store == s
    ensures Step(s, caller, req).response
         == Step(s.(items := s.items - {req.id}), caller, req).response
    ensures Step(s, caller, req).response
         == if req.UpdateItem? && !FieldsPresent(req.body) then Error(MissingFields)
            else Error(NotFoundOrUnauthorized)
    ensures Message(Step(s, caller, req).response.failure)
         == if req.UpdateItem? && !FieldsPresent(req.body) then "Name and description are required"
            else "Item not found or unauthorized"
  {
  }

  /**
   * Deleting removes exactly the matched item and answers 204 precisely when
   * the (id, owner) pair matches; repeating the same delete then answers 404
   * and changes nothing.
   */
  lemma DeleteTwice(s: Store, caller: UserId, id: ItemId)
    requires Fresh(s)
    ensures var first := Step(s, caller, DeleteItem(id));
      && (first.response == NoContent <==> Matches(s.items, id, caller))
      && (first.response == NoContent ==> first.store.items == s.items - {id})
      && Step(first.store, caller, DeleteItem(id)) == Outcome(first.store, Error(NotFoundOrUnauthorized))
      && (first.response != NoContent ==> Message(first.response.failure) == "Item not found or unauthorized")
  {
  }

  /**
   * A successful create followed by a list by the same caller shows the
   * caller's earlier items plus exactly the new one, under a fresh id, with the
   * submitted fields and the caller as owner.
   */
  lemma CreateThenList(s: Store, caller: UserId, body: Body)
    requires Fresh(s)
    requires FieldsPresent(body)
    ensures var created := Step(s, caller, CreateItem(body));
      && created.response.ItemCreated?
      && created.response.id !in s.items
      && created.response.item == Item(body["name"], body["description"], caller)
      && Step(created.store, caller, ListItems).response
         == ItemList(OwnedBy(s.items, caller)[created.response.id := created.response.item])
  {
  }

  /**
   * The owner is stamped from the verified identity, never from the body:
   * adding or changing any body member other than `name` and `description`
   * (an `owner` or `userId` member, say) makes no difference.
   */
  lemma OtherBodyMembersIgnored(s: Store, caller: UserId, req: Request, key: string, value: string)
    requires Fresh(s)
    requires req.CreateItem? || req.UpdateItem?
    requires key != "name" && key != "description"
    ensures Step(s, caller, req.(body := req.body[key := value])) == Step(s, caller, req)
  {
  }

  /** Requests by identities other than `other` leave `other`'s items as they were. */
  lemma {:induction false} OthersItemsSurviveRun(s: Store, calls: seq<Call>, other: UserId)
    requires Fresh(s)
    requires forall i :: 0 <= i < |calls| ==> calls[i].caller != other
    ensures OwnedBy(Run(s, calls).items, other) == OwnedBy(s.items, other)
    decreases |calls|
  {
    if calls != [] {
      var next := Step(s, calls[0].caller, calls[0].request).store;
      StepKeepsOthers(s, calls[0].caller, calls[0].request, other);
      OthersItemsSurviveRun(next, calls[1..], other);
    }
  }

  /** One request by `caller` leaves the items of any other identity as they were. */
  lemma StepKeepsOthers(s: Store, caller: UserId, req: Request, other: UserId)
    requires Fresh(s)
    requires caller != other
    ensures OwnedBy(Step(s, caller, req).store.items, other) == OwnedBy(s.items, other)
  {
  }

  /**
   * Ownership never transfers and ids are never reused: an id that existed at
   * the start and exists at the end belongs to the same owner throughout, and
   * any id handed out before the run that exists at the end existed at the start.
   */
  lemma {:induction false} OwnerStableOverRun(s: Store, calls: seq<Call>, id: ItemId)
    requires Fresh(s)
    requires id < s.nextId && id in Run(s, calls).items
    ensures id in s.items && Run(s, calls).items[id].owner == s.items[id].owner
    decreases |calls|
  {
    if calls != [] {
      var next := Step(s, calls[0].caller, calls[0].request).store;
      OwnerStableOverRun(next, calls[1..], id);
    }
  }

  /**
   * The life of one item: "u1" creates it, "u2"
   * cannot update it, "u1" updates and deletes it, after which "u1" no longer
   * lists it and a second delete answers 404.
   */
  lemma Scenario()
    ensures var s0 := Store(map[], 0);
      var o1 := Step(s0, "u1", CreateItem(map["name" := "a", "description" := "b"]));
      var o2 := Step(o1.store, "u2", UpdateItem(0, map["name" := "x", "description" := "y"]));
      var o3 := Step(o2.store, "u1", UpdateItem(0, map["name" := "a2", "description" := "b2"]));
      var o4 := Step(o3.store, "u1", DeleteItem(0));
      var o5 := Step(o4.store, "u1", ListItems);
      var o6 := Step(o5.store, "u1", DeleteItem(0));
      && o1.response == ItemCreated(0, Item("a", "b", "u1")) && Status(o1.response) == 201
      && Status(o2.response) == 404 && o2.store == o1.store
      && o3.response == ItemUpdated(0, Item("a2", "b2", "u1")) && Status(o3.response) == 200
      && Status(o4.response) == 204
      && o5.response == ItemList(map[])
      && Status(o6.response) == 404
  {
  }
}

/**
 * `ObjectWrapper`, the handle scripts hold on an engine object. It borrows
 * the object and listens to its delete signal; when the object goes away the
 * handle drops its pointer, and from then on every query answers with a
 * neutral value and every command does nothing.
 */
module PiLuaAPI {
  import opened Wrappers
  import opened Engine

  class ObjectWrapper {
    /** `m_obj`: the referent, null once it has been deleted. */
    var obj: GameObject?
    /** `m_delCon`: whether the slot on the referent's delete signal is still connected. */
    var delConnected: bool

    /** The safety invariant: a handle that still points at an object is still told of its deletion. */
    ghost predicate Valid()
      reads this
    {
      obj != null ==> delConnected
    }

    /** Wraps `o` and connects exactly one slot to its delete signal. */
    constructor (o: GameObject)
      modifies o
      ensures Valid()
      ensures obj == o && delConnected
      ensures o.deleteSubscriptions == old(o.deleteSubscriptions) + 1
      ensures o.State() == old(o.State()).(deleteSubscriptions := old(o.deleteSubscriptions) + 1)
    {
      obj := o;
      delConnected := true;
      o.deleteSubscriptions := o.deleteSubscriptions + 1;
    }

    /** `Is(t)`: the handle is live and its referent has runtime type `t`. */
    predicate Is(t: ObjectType)
      reads this
      ensures Is(t) <==> obj != null && t in obj.types
    {
      obj != null && obj.IsType(t)
    }

    predicate IsBody()
      reads this
      ensures IsBody() <==> obj != null && BODY in obj.types
    {
      Is(BODY)
    }

    /** The referent's balance in cents if it is a live ship, otherwise 0. */
    function GetMoney(): (cents: int)
      reads this, obj
      ensures !Is(SHIP) ==> cents == 0
      ensures Is(SHIP) ==> cents == obj.money
    {
      if Is(SHIP) then obj.money else 0
    }

    /** Sets a live ship's balance; does nothing to anything else. */
    method SetMoney(cents: int)
      modifies obj
      ensures obj == old(obj)
      ensures old(Is(SHIP)) ==> obj.State() == old(obj.State()).(money := cents)
      ensures !old(Is(SHIP)) && obj != null ==> obj.State() == old(obj.State())
    {
      if Is(SHIP) {
        obj.money := cents;
      }
    }

    /** The referent's label if it is a live body, otherwise the empty string. */
    function GetLabel(): (s: string)
      reads this, obj
      ensures !Is(BODY) ==> s == ""
      ensures Is(BODY) ==> s == obj.bodyLabel
    {
      if Is(BODY) then obj.bodyLabel else ""
    }

    /** Posts an advert on a live station's board; a no-op for any other handle. */
    method SpaceStationAddAdvert(luaMod: string, luaRef: int, description: string)
      modifies obj
      ensures obj == old(obj)
      ensures old(Is(SPACESTATION)) ==>
        obj.State() == old(obj.State()).(adverts := old(obj.adverts) + [Advert(luaMod, luaRef, description)])
      ensures !old(Is(SPACESTATION)) && obj != null ==> obj.State() == old(obj.State())
    {
      if Is(SPACESTATION) {
        obj.adverts := obj.adverts + [Advert(luaMod, luaRef, description)];
      }
    }

    /** Withdraws a live station's adverts under `luaMod`/`luaRef`; a no-op for any other handle. */
    method SpaceStationRemoveAdvert(luaMod: string, luaRef: int)
      modifies obj
      ensures obj == old(obj)
      ensures old(Is(SPACESTATION)) ==>
        obj.State() == old(obj.State()).(adverts := WithoutAdvert(old(obj.adverts), luaMod, luaRef))
      ensures !old(Is(SPACESTATION)) && obj != null ==> obj.State() == old(obj.State())
    {
      if Is(SPACESTATION) {
        obj.adverts := WithoutAdvert(obj.adverts, luaMod, luaRef);
      }
    }

    /**
     * The path of the referent's static system body, built by the current
     * system's `pathOf`; `None` unless the handle is a live body that has one.
     */
    function GetSBody<P>(pathOf: SBodyRef -> P): (path: Option<P>)
      reads this, obj
      ensures path.Some? <==> Is(BODY) && obj.sbody.Some?
      ensures path.Some? ==> path.value == pathOf(obj.sbody.value)
    {
      if Is(BODY) && obj.sbody.Some? then Some(pathOf(obj.sbody.value)) else None
    }

    /**
     * A new handle on the station a live ship is docked with, made by the
     * constructor and so subscribed to that station's delete signal; null
     * otherwise.
     */
    method GetDockedWith() returns (w: ObjectWrapper?)
      modifies if Is(SHIP) && obj.dockedWith != null then {obj.dockedWith} else {}
      ensures obj == old(obj) && delConnected == old(delConnected)
      ensures w == null <==> !(old(Is(SHIP)) && old(obj.dockedWith) != null)
      ensures w != null ==> fresh(w) && w.Valid() && w.obj == old(obj.dockedWith) && w.delConnected
      ensures w != null ==>
        w.obj.State() == old(obj.dockedWith.State()).(deleteSubscriptions := old(obj.dockedWith.deleteSubscriptions) + 1)
    {
      if Is(SHIP) && obj.dockedWith != null {
        w := new ObjectWrapper(obj.dockedWith);
      } else {
        w := null;
      }
    }

    /**
     * The referent's delete signal: forget it and disconnect. The new state
     * does not depend on the old one, so a second call changes nothing, and
     * every query now gives its neutral answer.
     */
    method OnDelete()
      modifies this
      ensures Valid()
      ensures obj == null && !delConnected
      ensures forall t :: !Is(t)
      ensures !IsBody() && GetMoney() == 0 && GetLabel() == ""
    {
      obj := null;
      delConnected := false;
    }

    /** The destructor: disconnects, whether or not `OnDelete` has already run. */
    method Dispose()
      modifies this
      ensures obj == old(obj) && !delConnected
    {
      delConnected := false;
    }
  }
}

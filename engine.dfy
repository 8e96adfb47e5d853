/**
 * The engine objects a script handle can refer to. Only what the handle
 * reads or writes is kept: the runtime type test, a body's label and its
 * static system body, a ship's balance and docking partner, a station's
 * bulletin board, and the number of slots connected to the object's
 * delete signal.
 */
module Engine {
  import opened Wrappers

  /** The `Object::Type` values the handle asks about; every other kind is `OtherType`. */
  datatype ObjectType = BODY | SHIP | SPACESTATION | OtherType(code: nat)

  /** A bulletin-board advert as a script posts it: owning module, script reference, text. */
  datatype Advert = Advert(luaMod: string, luaRef: int, description: string)

  /** A static system body, named by its index in the current star system. */
  type SBodyRef = nat

  /** The mutable fields of a `GameObject`, as one value, for stating what an operation leaves alone. */
  datatype ObjectState = ObjectState(
    bodyLabel: string, money: int, sbody: Option<SBodyRef>, dockedWith: GameObject?,
    adverts: seq<Advert>, deleteSubscriptions: nat)

  class GameObject {
    /** The types `IsType` answers true for; no hierarchy between them is assumed. */
    const types: set<ObjectType>
    var bodyLabel: string
    /** A ship's balance, in cents. */
    var money: int
    /** A body's static system body, or `None` for a null `GetSBody()`. */
    var sbody: Option<SBodyRef>
    /** A ship's `GetDockedWith()`, null when not docked. */
    var dockedWith: GameObject?
    /** A station's bulletin board. */
    var adverts: seq<Advert>
    /** How many slots have been connected to this object's delete signal. */
    var deleteSubscriptions: nat

    function State(): ObjectState
      reads this
    {
      ObjectState(bodyLabel, money, sbody, dockedWith, adverts, deleteSubscriptions)
    }

    /** `Object::IsType`. */
    predicate IsType(t: ObjectType) {
      t in types
    }
  }

  /**
   * The board after `SpaceStation::BBRemoveAdvert(luaMod, luaRef)`: every
   * advert posted under that module and reference is gone, the rest keep
   * their order.
   */
  function WithoutAdvert(board: seq<Advert>, luaMod: string, luaRef: int): (r: seq<Advert>)
    ensures |r| <= |board|
    ensures forall a :: multiset(r)[a] == if a.luaMod == luaMod && a.luaRef == luaRef then 0 else multiset(board)[a]
  {
    if board == [] then []
    else
      assert board == [board[0]] + board[1..];
      if board[0].luaMod == luaMod && board[0].luaRef == luaRef then WithoutAdvert(board[1..], luaMod, luaRef)
      else [board[0]] + WithoutAdvert(board[1..], luaMod, luaRef)
  }

  /**
   * Removal works part by part: removing from `front + back` is removing from
   * `front`, then from `back`. With the one-advert case given by the
   * definition, this says the kept adverts keep their order.
   */
  lemma {:induction false} WithoutAdvertAppend(front: seq<Advert>, back: seq<Advert>, luaMod: string, luaRef: int)
    ensures WithoutAdvert(front + back, luaMod, luaRef) ==
      WithoutAdvert(front, luaMod, luaRef) + WithoutAdvert(back, luaMod, luaRef)
  {
    if front == [] {
      assert front + back == back;
    } else {
      assert (front + back)[0] == front[0] && (front + back)[1..] == front[1..] + back;
      WithoutAdvertAppend(front[1..], back, luaMod, luaRef);
    }
  }
}

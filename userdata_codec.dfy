/**
 * `UserDataSerialize` / `UserDataUnserialize`: the text envelope in which
 * script userdata is saved. A handle is saved as the registry index of its
 * body, written in decimal between a tag line and a newline; a system-body
 * path or a system location as its tag line followed by whatever its own
 * writer produced, which this module treats as an opaque payload.
 */
module UserDataCodec {
  import opened Wrappers
  import opened Decimal
  import opened Engine
  import opened PiLuaAPI

  const OBJECT_WRAPPER_TAG: string := "ObjectWrapper\n"
  const SBODY_PATH_TAG: string := "SBodyPath\n"
  const SYS_LOC_TAG: string := "SysLoc\n"

  /** The userdata kinds a script value can have. */
  datatype UserData =
    | WrapperData(w: ObjectWrapper)
      /** An `SBodyPath`, known by the text its own writer produces and its reader consumes. */
    | PathData(written: string)
      /** A `SysLoc`, likewise. */
    | LocData(written: string)
    | OtherUserData(typeName: string)

  datatype SerializeError =
      /** The handle to save is not a live body (the assertion on line 127 fails). */
    | NotABody
      /** "Tried to serialize unknown userdata type." */
    | UnknownUserData

  /** What the decoder recovered, before a handle index is resolved through the registry. */
  datatype Decoded =
    | DecodedObject(index: int)
    | DecodedPath(payload: string)
    | DecodedLoc(payload: string)

  /** `std::string::substr(pos, len)`; a `pos` past the end throws, so callers keep it in range. */
  function Substr(s: string, pos: nat, len: nat): (r: string)
    requires pos <= |s|
    ensures |r| == if pos + len <= |s| then len else |s| - pos
    ensures r <= s[pos..]
  {
    s[pos..if pos + len <= |s| then pos + len else |s|]
  }

  /** Comparing the first `|tag|` characters with `tag` is a prefix test. */
  lemma SubstrMatchesTag(s: string, tag: string)
    ensures Substr(s, 0, |tag|) == tag <==> tag <= s
  {
    if tag <= s {
      assert s[..|tag|] == tag;
    }
  }

  /** `UserDataSerialize`. `indexOf` is the save-time registry, `Serializer::LookupBody(Body*)`. */
  function Serialize(u: UserData, indexOf: map<GameObject, int>): (r: Result<string, SerializeError>)
    reads if u.WrapperData? then {u.w} else {}
    requires u.WrapperData? && u.w.IsBody() ==> u.w.obj in indexOf
    ensures r.Err? <==> u.OtherUserData? || (u.WrapperData? && !u.w.IsBody())
    ensures r.Err? ==> (r.error == NotABody <==> u.WrapperData?)
  {
    match u
    case WrapperData(w) =>
      if w.IsBody() then Ok(OBJECT_WRAPPER_TAG + FormatInt(indexOf[w.obj]) + "\n") else Err(NotABody)
    case PathData(written) => Ok(SBODY_PATH_TAG + written)
    case LocData(written) => Ok(SYS_LOC_TAG + written)
    case OtherUserData(_) => Err(UnknownUserData)
  }

  /**
   * `UserDataUnserialize` up to the registry lookup: which tag the text
   * starts with, and the index or the payload behind it. Text that starts
   * with none of the tags gives no value.
   */
  function Unserialize(s: string): (r: Option<Decoded>)
    ensures r.None? <==> !(OBJECT_WRAPPER_TAG <= s) && !(SBODY_PATH_TAG <= s) && !(SYS_LOC_TAG <= s)
    ensures r.Some? && r.value.DecodedObject? ==>
      OBJECT_WRAPPER_TAG <= s && r.value.index == Atoi(s[|OBJECT_WRAPPER_TAG|..])
    ensures r.Some? && r.value.DecodedPath? ==> s == SBODY_PATH_TAG + r.value.payload
    ensures r.Some? && r.value.DecodedLoc? ==> s == SYS_LOC_TAG + r.value.payload
  {
    SubstrMatchesTag(s, OBJECT_WRAPPER_TAG);
    SubstrMatchesTag(s, SBODY_PATH_TAG);
    SubstrMatchesTag(s, SYS_LOC_TAG);
    if Substr(s, 0, 14) == OBJECT_WRAPPER_TAG then Some(DecodedObject(Atoi(s[14..])))
    else if Substr(s, 0, 10) == SBODY_PATH_TAG then Some(DecodedPath(s[10..]))
    else if Substr(s, 0, 7) == SYS_LOC_TAG then Some(DecodedLoc(s[7..]))
    else None
  }

  /** The object a saved string brings back through the load-time registry `bodyAt`, or null. */
  function Resolved(s: string, bodyAt: map<int, GameObject>): (o: GameObject?)
    ensures o != null ==> Unserialize(s).Some? && Unserialize(s).value.DecodedObject?
    ensures o != null ==> Unserialize(s).value.index in bodyAt && o == bodyAt[Unserialize(s).value.index]
    ensures Unserialize(s).Some? && Unserialize(s).value.DecodedObject? && Unserialize(s).value.index in bodyAt ==>
      o == bodyAt[Unserialize(s).value.index]
  {
    match Unserialize(s)
    case Some(DecodedObject(i)) => if i in bodyAt then bodyAt[i] else null
    case _ => null
  }

  /**
   * `UserDataUnserialize`: decodes `s` and, for a handle, wraps the body the
   * registry `bodyAt` (`Serializer::LookupBody(int)`) holds at the index,
   * through the constructor, so the new handle is subscribed to its delete
   * signal.
   */
  method UserDataUnserialize(s: string, bodyAt: map<int, GameObject>) returns (r: Option<UserData>)
    requires Unserialize(s).Some? && Unserialize(s).value.DecodedObject? ==> Unserialize(s).value.index in bodyAt
    modifies Resolved(s, bodyAt)
    ensures Unserialize(s).None? ==> r.None?
    ensures Unserialize(s).Some? && Unserialize(s).value.DecodedPath? ==> r == Some(PathData(Unserialize(s).value.payload))
    ensures Unserialize(s).Some? && Unserialize(s).value.DecodedLoc? ==> r == Some(LocData(Unserialize(s).value.payload))
    ensures Unserialize(s).Some? && Unserialize(s).value.DecodedObject? ==>
      r.Some? && r.value.WrapperData? && fresh(r.value.w) && r.value.w.Valid() &&
      r.value.w.obj == Resolved(s, bodyAt) != null
    ensures Resolved(s, bodyAt) != null ==>
      Resolved(s, bodyAt).State() == old(Resolved(s, bodyAt).State()).(deleteSubscriptions := old(Resolved(s, bodyAt).deleteSubscriptions) + 1)
  {
    var d := Unserialize(s);
    match d {
      case None =>
        r := None;
      case Some(DecodedObject(i)) =>
        var w := new ObjectWrapper(bodyAt[i]);
        r := Some(WrapperData(w));
      case Some(DecodedPath(p)) =>
        r := Some(PathData(p));
      case Some(DecodedLoc(p)) =>
        r := Some(LocData(p));
    }
  }

  /** The three tags have the lengths the decoder compares against, and none is a prefix of another. */
  lemma TagsUnambiguous()
    ensures |OBJECT_WRAPPER_TAG| == 14 && |SBODY_PATH_TAG| == 10 && |SYS_LOC_TAG| == 7
    ensures !(OBJECT_WRAPPER_TAG <= SBODY_PATH_TAG) && !(SBODY_PATH_TAG <= OBJECT_WRAPPER_TAG)
    ensures !(OBJECT_WRAPPER_TAG <= SYS_LOC_TAG) && !(SYS_LOC_TAG <= OBJECT_WRAPPER_TAG)
    ensures !(SBODY_PATH_TAG <= SYS_LOC_TAG) && !(SYS_LOC_TAG <= SBODY_PATH_TAG)
  {
    assert OBJECT_WRAPPER_TAG[0] == 'O' && SBODY_PATH_TAG[0] == 'S' && SYS_LOC_TAG[0] == 'S';
    assert SBODY_PATH_TAG[1] == 'B' && SYS_LOC_TAG[1] == 'y';
  }

  /** A text that starts with one tag starts with neither of the others. */
  lemma TagsDisjointOn(s: string)
    ensures OBJECT_WRAPPER_TAG <= s ==> !(SBODY_PATH_TAG <= s) && !(SYS_LOC_TAG <= s)
    ensures SBODY_PATH_TAG <= s ==> !(OBJECT_WRAPPER_TAG <= s) && !(SYS_LOC_TAG <= s)
    ensures SYS_LOC_TAG <= s ==> !(OBJECT_WRAPPER_TAG <= s) && !(SBODY_PATH_TAG <= s)
  {
    TagsUnambiguous();
    if OBJECT_WRAPPER_TAG <= s {
      assert s[0] == 'O';
    }
    if SBODY_PATH_TAG <= s {
      assert s[0] == 'S' && s[1] == 'B';
    }
    if SYS_LOC_TAG <= s {
      assert s[0] == 'S' && s[1] == 'y';
    }
  }

  /** Every saved string starts with exactly one of the three tags. */
  lemma SerializeIsTagged(u: UserData, indexOf: map<GameObject, int>)
    requires u.WrapperData? && u.w.IsBody() ==> u.w.obj in indexOf
    requires Serialize(u, indexOf).Ok?
    ensures var s := Serialize(u, indexOf).value;
      (OBJECT_WRAPPER_TAG <= s <==> u.WrapperData?) &&
      (SBODY_PATH_TAG <= s <==> u.PathData?) &&
      (SYS_LOC_TAG <= s <==> u.LocData?)
  {
    var s := Serialize(u, indexOf).value;
    TagsDisjointOn(s);
    match u
    case WrapperData(w) =>
      assert s == OBJECT_WRAPPER_TAG + (FormatInt(indexOf[w.obj]) + "\n");
    case PathData(_) =>
    case LocData(_) =>
  }

  /**
   * A live body's handle is saved as its tag, the `%d` text of its registry
   * index and a newline, and decoding that text gives back the index,
   * because `atoi` stops at the newline.
   */
  lemma HandleRoundTrip(w: ObjectWrapper, indexOf: map<GameObject, int>)
    requires w.IsBody() && w.obj in indexOf
    ensures Serialize(WrapperData(w), indexOf) == Ok(OBJECT_WRAPPER_TAG + FormatInt(indexOf[w.obj]) + "\n")
    ensures Unserialize(Serialize(WrapperData(w), indexOf).value) == Some(DecodedObject(indexOf[w.obj]))
  {
    var n := indexOf[w.obj];
    var s := OBJECT_WRAPPER_TAG + FormatInt(n) + "\n";
    assert s == OBJECT_WRAPPER_TAG + (FormatInt(n) + "\n");
    assert s[|OBJECT_WRAPPER_TAG|..] == FormatInt(n) + "\n";
    AtoiOfFormatInt(n, "\n");
  }

  /** A path or a location is saved as its tag and its payload, and decoding hands back that payload unchanged. */
  lemma ValueRoundTrip(written: string, indexOf: map<GameObject, int>)
    ensures Unserialize(Serialize(PathData(written), indexOf).value) == Some(DecodedPath(written))
    ensures Unserialize(Serialize(LocData(written), indexOf).value) == Some(DecodedLoc(written))
  {
    TagsDisjointOn(SBODY_PATH_TAG + written);
    TagsDisjointOn(SYS_LOC_TAG + written);
  }

  /**
   * Save and load keep a handle's identity: when the load-time registry maps
   * the saved index back to the same body, the decoded handle wraps that body.
   */
  lemma SaveLoadKeepsReferent(w: ObjectWrapper, indexOf: map<GameObject, int>, bodyAt: map<int, GameObject>)
    requires w.IsBody() && w.obj in indexOf
    requires indexOf[w.obj] in bodyAt && bodyAt[indexOf[w.obj]] == w.obj
    ensures Serialize(WrapperData(w), indexOf).Ok?
    ensures Resolved(Serialize(WrapperData(w), indexOf).value, bodyAt) == w.obj
  {
    HandleRoundTrip(w, indexOf);
  }

  /** A text under no known tag decodes to nothing. */
  lemma UnknownTagGivesNothing()
    ensures Unserialize("Bogus\nabc\n") == None
  {
    assert "Bogus\nabc\n"[0] == 'B';
  }

  /** Under the handle tag, text with no digits still decodes, to index 0, as `atoi` reads it. */
  lemma HandleTagWithoutDigits()
    ensures Unserialize(OBJECT_WRAPPER_TAG + "abc") == Some(DecodedObject(0))
  {
    var s := OBJECT_WRAPPER_TAG + "abc";
    assert s[14..] == "abc";
    SubstrMatchesTag(s, OBJECT_WRAPPER_TAG);
    assert Substr(s, 0, 14) == OBJECT_WRAPPER_TAG;
    assert SkipSpace("abc") == "abc" && LeadingDigits("abc") == [];
    assert Atoi("abc") == 0;
  }
}

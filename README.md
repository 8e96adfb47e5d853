# Script object handles, their save format, and ship equipment slots

A Dafny model of two pieces of the Pioneer space game (early Lua-scripting era):

- **`ObjectWrapper`** (`src/PiLuaAPI.cpp`). This is the handle a Lua script holds on an engine object (a body, ship or space station).
  - The handle borrows the object and connects one slot to the object's delete signal.
  - On deletion the handle drops its pointer. From then on every query gives a neutral answer (`false`, `0`, `""`, null) and every command does nothing.
- **The userdata save codec** (`UserDataSerialize` / `UserDataUnserialize`, same file). It writes a script value as a text block behind a tag line: `ObjectWrapper\n`, `SBodyPath\n` or `SysLoc\n`.
  - A handle is written as the decimal registry index of its body, then a newline.
  - A system-body path or system location is written as its own serialized text.
  - The decoder picks the tag by comparing a fixed-length prefix. For a handle it reads the index with `atoi` and wraps whatever body the registry holds at that index.
- **`ShipType::Get` and `EquipSet`** (`src/ShipType.h`). `Get` looks a ship definition up by name. `EquipSet` holds one vector of equipment entries per slot. It fills and empties entries in index order, counts them, and emits `onChange`.

Files:

- `wrappers.dfy`: `Option` and `Result`.
- `decimal.dfy`: `printf("%d")` and C `atoi`, with the round trip between them.
- `engine.dfy`: the engine object a handle refers to. This is context: only the fields the handle reads or writes.
- `pi_lua_api.dfy`: the `ObjectWrapper` class.
- `userdata_codec.dfy`: the tagged codec and its lemmas.
- `equip_slots.dfy`: `ReplaceFirst`, which specifies what `Add` and `Remove` do to one slot, with its lemmas.
- `ship_type.dfy`: `ShipType`, `ShipType::Get` and the `EquipSet` class.

Collaborators are passed in as parameters:

- The save-time registry (`Serializer::LookupBody(Body*)`) is a `map<GameObject, int>`.
- The load-time registry (`Serializer::LookupBody(int)`) is a `map<int, GameObject>`.
- The current system's `GetPathOf` is a function argument.
- `EquipType::types[e].slot` is the function `slotOf`, fixed when the `EquipSet` is built.
- The static table `ShipType::types` is a map argument.
- `Equip::NONE` and `Equip::SLOT_MAX` are constants whose values the model leaves open.

Error paths and edge cases follow the code:

- **Saving a handle that is not a live body.** Line 127 only `assert`s that the handle is a body. `Serialize` returns `Err(NotABody)` in that case, which is the debug-build abort.
- **Text under no known tag.** Line 177 returns without pushing a value, so `Unserialize` gives `None`.
- **The index under the handle tag.** Line 160 reads it with `atoi`, which gives 0 when no digits follow. So such text decodes to index 0 rather than failing (`HandleTagWithoutDigits`).
- **Unresolved indices.** The constructor dereferences its argument (line 29). So `UserDataUnserialize` requires that the registry resolves the decoded index to an object.

## Model

| member | source | states |
|---|---|---|
| `PiLuaAPI.ObjectWrapper.constructor` | src/PiLuaAPI.cpp:28-30 | The handle points at `o` and is connected to its delete signal. `o` gains exactly one delete subscription and nothing else about `o` changes. |
| `PiLuaAPI.ObjectWrapper.Is` | src/PiLuaAPI.cpp:92-94 | True only for a live handle whose referent has type `t`. A cleared handle answers false for every type. |
| `PiLuaAPI.ObjectWrapper.IsBody` | src/PiLuaAPI.cpp:31-33 | True exactly when the handle is live and the referent is a body. |
| `PiLuaAPI.ObjectWrapper.GetMoney` | src/PiLuaAPI.cpp:34-41 | The balance in cents for a live ship. 0 for a cleared handle or any other kind of object. |
| `PiLuaAPI.ObjectWrapper.SetMoney` | src/PiLuaAPI.cpp:43-48 | A live ship's balance becomes the argument and nothing else changes. For any other handle the referent is untouched. |
| `PiLuaAPI.ObjectWrapper.GetLabel` | src/PiLuaAPI.cpp:49-55 | The body's label for a live body, otherwise `""`. |
| `PiLuaAPI.ObjectWrapper.SpaceStationAddAdvert` | src/PiLuaAPI.cpp:56-60 | A live station's board gains the advert, taken to be appended at its end, and nothing else changes. No-op otherwise. |
| `PiLuaAPI.ObjectWrapper.SpaceStationRemoveAdvert` | src/PiLuaAPI.cpp:61-65 | A live station loses the adverts under that module and reference and nothing else changes. No-op otherwise. |
| `PiLuaAPI.ObjectWrapper.GetSBody` | src/PiLuaAPI.cpp:66-78 | A path is returned exactly when the handle is a live body with a non-null system body. The path is the one the current system gives for that system body. |
| `PiLuaAPI.ObjectWrapper.GetDockedWith` | src/PiLuaAPI.cpp:79-86 | Null unless the handle is a live ship docked with a station. Otherwise a fresh handle on that station, subscribed once to its delete signal. The handle itself is unchanged. |
| `PiLuaAPI.ObjectWrapper.OnDelete` | src/PiLuaAPI.cpp:95-99 | Clears the pointer and disconnects. The new state does not depend on the old one, so the method is idempotent. Afterwards `Is` is false for every type, `GetMoney` is 0 and `GetLabel` is `""`. |
| `PiLuaAPI.ObjectWrapper.Dispose` | src/PiLuaAPI.cpp:88-91 | The destructor disconnects in every state, including after `OnDelete`. |
| `Decimal.FormatInt` | src/PiLuaAPI.cpp:128 | `%d` text: a leading `-` exactly for negative numbers, then only digits, with no leading zero (0 prints as `"0"`). |
| `Decimal.DigitsValueOfDigits` | src/PiLuaAPI.cpp:128 | Reading the printed digits of `n` gives `n`. |
| `Decimal.AtoiOfFormatInt` | src/PiLuaAPI.cpp:160 | `atoi` of the `%d` text of any `n` gives `n`, when followed by anything that does not start with a digit (such as the newline). |
| `Engine.WithoutAdvert` | src/PiLuaAPI.cpp:63 | The board after a removal keeps every advert not under that module and reference, with its multiplicity, and drops all the others. |
| `Engine.WithoutAdvertAppend` | src/PiLuaAPI.cpp:63 | Removing from a board made of two parts is removing from each part in turn. So the kept adverts stay in their original order. |
| `Decimal.Atoi` | src/PiLuaAPI.cpp:160 | C `atoi`. After leading whitespace, text that starts with neither a sign nor a digit reads as 0. Only a leading `-` can give a negative value. |
| `UserDataCodec.Substr` | src/PiLuaAPI.cpp:159-171 | `std::string::substr(pos, len)`: a piece of the string starting at `pos`, `len` long, or shorter when the string ends first. |
| `UserDataCodec.Serialize` | src/PiLuaAPI.cpp:119-153 | Fails exactly for an unknown userdata kind or for a handle that is not a live body. The failure reason tells the two apart. |
| `UserDataCodec.SerializeIsTagged` | src/PiLuaAPI.cpp:119-153 | Every saved string starts with exactly one tag: the one for the kind of value saved. |
| `UserDataCodec.Unserialize` | src/PiLuaAPI.cpp:155-178 | No value exactly when the text starts with none of the three tags. For a path or location, the payload is the text with its tag stripped. For a handle, the index is `atoi` of what follows the tag. |
| `UserDataCodec.Resolved` | src/PiLuaAPI.cpp:159-162 | The object a saved string brings back is exactly the registry's body at the decoded handle index. It is null when the text is not a handle or the index is not registered. |
| `UserDataCodec.UserDataUnserialize` | src/PiLuaAPI.cpp:155-178 | Paths and locations come back as their payloads and unknown text gives nothing. A handle text gives a fresh handle on the registry's body, made through the constructor: one new subscription, nothing else on the body changes. |
| `UserDataCodec.TagsUnambiguous` | src/PiLuaAPI.cpp:159-177 | The tags are 14, 10 and 7 characters long, matching the decoder's prefix lengths. None is a prefix of another. |
| `UserDataCodec.HandleRoundTrip` | src/PiLuaAPI.cpp:127-162 | A live body's handle is saved as `"ObjectWrapper\n" + %d(index) + "\n"`. Decoding that text gives back the same index, for every index. |
| `UserDataCodec.ValueRoundTrip` | src/PiLuaAPI.cpp:131-175 | A path or location saved and decoded hands its reader exactly the payload its writer produced. |
| `UserDataCodec.SaveLoadKeepsReferent` | src/PiLuaAPI.cpp:119-178 | When the load registry maps the saved index back to the same body, the decoded handle refers to the original body. |
| `UserDataCodec.UnknownTagGivesNothing` | src/PiLuaAPI.cpp:177 | `"Bogus\nabc\n"` decodes to no value. |
| `UserDataCodec.HandleTagWithoutDigits` | src/PiLuaAPI.cpp:159-160 | A handle tag followed by no digits decodes to index 0 rather than failing. |
| `ShipTypes.Get` | src/ShipType.h:45-49 | Null exactly when the name is not in the table. Otherwise the stored definition. |
| `ShipTypes.SlotCapacity` | src/ShipType.h:60 | A slot's capacity for ship type `t`. It is 0 when `t` is missing, because `operator[]` value-initialises the definition. |
| `ShipTypes.EquipSet.constructor` | src/ShipType.h:56 | Every slot starts empty and nothing has been emitted. |
| `ShipTypes.EquipSet.InitSlotSizes` | src/ShipType.h:58-63 | Slot `i` is resized to type `t`'s capacity `i`, filled with value-initialised entries. `onChange` is emitted once. |
| `ShipTypes.EquipSet.GetSlotSize` | src/ShipType.h:64-66 | The number of entries in slot `s`. |
| `ShipTypes.EquipSet.GetFirst` | src/ShipType.h:67-70 | `NONE` for an empty slot, otherwise entry 0. |
| `ShipTypes.EquipSet.GetAt` | src/ShipType.h:71-73 | Entry `idx` of slot `s`. The source indexes the vector unchecked, so `idx` is required to be in range. |
| `ShipTypes.EquipSet.Set` | src/ShipType.h:74-77 | Only entry `idx` of slot `s` changes, and it becomes `e`. Slot sizes are kept and `onChange` is emitted once. |
| `ShipTypes.EquipSet.Add` | src/ShipType.h:78-90 | Slot `slotOf(e)` becomes `ReplaceFirst(old, NONE, e, num)` and every other slot and size is kept. The result is true exactly when `0 <= num <= free entries`. `onChange` is emitted exactly when something was placed. |
| `ShipTypes.EquipSet.AddOne` | src/ShipType.h:91-93 | Same as `Add(e, 1)`: succeeds exactly when the slot had a free entry. |
| `ShipTypes.EquipSet.Remove` | src/ShipType.h:95-108 | Slot `slotOf(e)` becomes `ReplaceFirst(old, e, NONE, num)` and every other slot and size is kept. Returns `min(num, count of e)`, or the whole count for negative `num`. Always emits `onChange`. |
| `ShipTypes.EquipSet.Count` | src/ShipType.h:109-115 | The number of entries of slot `s` equal to `e` (the multiset count). |
| `ShipTypes.EquipSet.FreeSpace` | src/ShipType.h:116-122 | The number of `NONE` entries of slot `s`, the same as `Count(s, NONE)`. |
| `EquipSlots.ReplaceFirst` | src/ShipType.h:78-108 | Replacing entries never changes a slot's size. |
| `EquipSlots.ReplacedCount` | src/ShipType.h:78-108 | The loops' `numDone` never exceeds the slot size. |
| `EquipSlots.ReplacedCountIsCapped` | src/ShipType.h:78-108 | The number replaced is `min(num, matching entries)`, or all matching entries for negative `num`. |
| `EquipSlots.ReplaceFirstAppend` | src/ShipType.h:81-87 | Walking a slot in two parts is walking the first part, then the second with the remaining quota. This is what the in-order loop relies on. |
| `EquipSlots.ReplaceFirstAt` | src/ShipType.h:78-108 | Entry `j` changes exactly when it matches and fewer than `num` matches come before it. So the first matches in index order are the ones changed, and nothing else changes. |
| `EquipSlots.ReplaceFirstCounts` | src/ShipType.h:78-122 | After `Add`, the count of `e` rises and `FreeSpace` falls by the number placed. After `Remove`, the reverse. All other counts are kept. |
| `EquipSlots.ReplaceFirstSame` | src/ShipType.h:78-90 | `Add(NONE, num)` leaves the slot unchanged, although it counts its "placements". |

## Left out

- Lua stack marshalling (`pull2cpp`, `push2lua`, `push2luaWithGc`, `luaL_checktype`, `mylua_checkudata`), the OOLUA export macros and `RegisterPiLuaAPI`. These are foreign-library plumbing. The codec works on a closed `UserData` variant instead.
- `LuaPi::GetPlayer`, `GetGameTime`, `RandInt`, `RandReal`, `Message`, `ImportantMessage`, `RandPersonName`, `GetCurrentSystem` and `FormatDate`. These read globals, the random generator or the UI message log, or format dates.
- `LuaPi::SpawnShip`: floating-point game time, random positions, physics frames and `Space::AddBody`. Its use of `ShipType::Get` to report "Unknown ship type" rests on `ShipTypes.Get`'s contract.
- `SoundEvent`: sound output.
- `GetMoney` / `SetMoney`: the balance is modelled in integer cents. The `double` conversions (`0.01 * money`, `(Sint64)(m*100.0)`) and the 64-bit range of the balance are not modelled.
- The internals of `SBodyPath` and `SysLoc` serialization, `Serializer::Writer` / `Reader`, and `StarSystem::GetPathOf` are not part of this model. Payloads are opaque strings and the path builder is a parameter.
- `Serializer::LookupBody` is not part of this model. Both directions are maps supplied by the caller.
- `UserDataCodec.Serialize`: what `LookupBody(Body*)` returns for a body it has not registered is not shown. So a live body missing from the save-time map is excluded by a precondition; line 128 only prints the returned `int`.
- `UserDataCodec.UserDataUnserialize`: an index missing from the load-time map is excluded by a precondition, because the constructor dereferences the looked-up body (line 29).
- `Object::IsType` and the type hierarchy are not part of this model. Each object carries a fixed set of types, and no implication between them (such as ship implies body) is assumed.
- sigc signals: a handle's connection is a flag, and the object counts the subscriptions made to it. Disconnecting does not decrement the object's count, because the signal's slot list is not modelled. Neither is the emission that calls `OnDelete` on every handle when an object is deleted.
- `PiLuaAPI.ObjectWrapper.SpaceStationAddAdvert`: `SpaceStation::BBAddAdvert` is not part of this model. Its effect is taken to be "append the advert to the board". Any signal it may emit when the board changes is not modelled.
- `PiLuaAPI.ObjectWrapper.SpaceStationRemoveAdvert`: `SpaceStation::BBRemoveAdvert` is not part of this model. Its effect is taken to be "drop every advert under that module and reference" (`Engine.WithoutAdvert`).
- `PiLuaAPI.ObjectWrapper.Dispose`: this models only the disconnect. The handle's storage being freed is not modelled.
- `UserDataCodec.Serialize`: in a release build the `assert` on line 127 is compiled out and `LookupBody` is called on whatever the handle holds. The model gives the debug-build outcome, an error.
- `UserDataCodec.Serialize`: the 128-byte `snprintf` buffer never truncates, since an `int`'s text is far shorter. C `int` and `size_t` widths of the index are not modelled: indices are unbounded integers.
- `UserDataCodec.Unserialize`: the chain of `Serializer::Reader` calls on the payload is not modelled. The decoder's result is the payload handed to the reader.
- `ShipType` floating-point fields (`linThrust`, `angThrust`, `gunMount`), `ShipType::Init`, `GetRandomType` and `define_ship`. These involve Lua and the random generator.
- `EquipSet::Save` / `Load`: their bodies are not part of this model.
- `ShipTypes.EquipSet.InitSlotSizes`: `operator[]` on a missing ship type also inserts that type into the static table. The model gives only the resulting capacities (all 0), not the insertion. A negative capacity would make the vector constructor throw, so capacities are required to be non-negative.
- The values of `Equip::NONE` and `Equip::SLOT_MAX` are defined outside this model. So is whether a value-initialised entry equals `NONE`. The model leaves both constants open.
- `ShipTypes.EquipSet.Add` and `ShipTypes.EquipSet.Remove`: the `int` counters are unbounded integers, so overflow is not modelled. The signal `onChange` is an emit counter.

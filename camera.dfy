/** `cameraIter`, `saveCameraOrientation` and `restoreCameraOrientation`:
    the camera's orientation attributes are written to session storage as
    arrays of numbers under `camera.<attribute>` when the page unloads, and
    read back onto the new camera when the scene is set up.

    `cameraIter` walks a fixed list of attribute names. As written the list
    is `position`, `quarternion`, `up`; the camera has no `quarternion`
    attribute, so `camera[key]` is `undefined` there and the call on it
    throws a TypeError. `AsWrittenKeys` is that list and `IntendedKeys` the
    one with `quaternion` spelled as the camera spells it; every operation
    takes the list as a parameter. */
module CameraStore {
  import opened Wrappers

  /** One coordinate of an attribute. `None` is a coordinate that is not a
      number: `undefined` after `fromArray` of a short array, or `null`. */
  type Component = Option<real>

  /** The three persisted attributes of the camera: `position` and `up` are
      vectors of three coordinates, `quaternion` has four. */
  datatype CameraState = CameraState(position: seq<Component>, quaternion: seq<Component>, up: seq<Component>)

  /** What `JSON.parse` makes of a stored string: an array of coordinates,
      a falsy value (`null`, `false`, `0`, `""`), or text that is not JSON,
      on which it throws a SyntaxError. */
  datatype Item = Array(values: seq<Component>) | Falsy | Malformed

  /** Session storage: key to stored item. */
  type Store = map<string, Item>

  /** A walk over the attribute list: the state it leaves, and whether it
      stopped on an exception. Effects before the exception remain. */
  datatype Run<T> = Run(state: T, threw: bool)

  /** The list `cameraIter` walks, as written. */
  const AsWrittenKeys: seq<string> := ["position", "quarternion", "up"]

  /** The list with the camera's own attribute name. */
  const IntendedKeys: seq<string> := ["position", "quaternion", "up"]

  predicate IsAttribute(key: string) {
    key == "position" || key == "quaternion" || key == "up"
  }

  /** The storage key of an attribute. */
  function StorageKey(key: string): string {
    "camera." + key
  }

  /** `camera[key]`: the attribute's coordinates, `None` for `undefined`. */
  function Attribute(cam: CameraState, key: string): (r: Option<seq<Component>>)
    ensures r.Some? <==> IsAttribute(key)
  {
    if key == "position" then Some(cam.position)
    else if key == "quaternion" then Some(cam.quaternion)
    else if key == "up" then Some(cam.up)
    else None
  }

  /** Number of coordinates of an attribute. */
  function Width(key: string): nat {
    if key == "quaternion" then 4 else 3
  }

  /** A camera whose attributes have their proper number of coordinates. */
  predicate WellFormed(cam: CameraState) {
    |cam.position| == 3 && |cam.quaternion| == 4 && |cam.up| == 3
  }

  /** `fromArray(values)`: coordinate `i` becomes `values[i]`, `undefined`
      past the end of `values`. */
  function FromArray(width: nat, values: seq<Component>): (r: seq<Component>)
    ensures |r| == width
  {
    seq(width, i requires 0 <= i < width => if i < |values| then values[i] else None)
  }

  function SetAttribute(cam: CameraState, key: string, v: seq<Component>): (r: CameraState)
    requires IsAttribute(key)
    ensures Attribute(r, key) == Some(v)
    ensures forall k :: k != key ==> Attribute(r, k) == Attribute(cam, k)
  {
    if key == "position" then cam.(position := v)
    else if key == "quaternion" then cam.(quaternion := v)
    else cam.(up := v)
  }

  /** One call of the save callback: `camera[key].toArray()`, then
      `setItem`. Nothing runs after an exception. */
  function SaveStep(cam: CameraState, r: Run<Store>, key: string): Run<Store> {
    if r.threw then r
    else match Attribute(cam, key)
      case None => Run(r.state, true)
      case Some(v) => Run(r.state[StorageKey(key) := Array(v)], false)
  }

  /** `saveCameraOrientation` over the attribute list `keys`; it never
      removes a stored item. */
  function Save(cam: CameraState, keys: seq<string>, store: Store): (r: Run<Store>)
    ensures store.Keys <= r.state.Keys
    decreases |keys|
  {
    if keys == [] then Run(store, false)
    else SaveStep(cam, Save(cam, keys[..|keys| - 1], store), keys[|keys| - 1])
  }

  /** One call of the restore callback: a missing key reads as `null`,
      which, like any falsy value, is skipped; text that is not JSON throws
      in `JSON.parse`; an array is applied with `fromArray`, which throws
      when `camera[key]` is `undefined`. */
  function RestoreStep(r: Run<CameraState>, store: Store, key: string): Run<CameraState> {
    if r.threw || StorageKey(key) !in store then r
    else match store[StorageKey(key)]
      case Falsy => r
      case Malformed => Run(r.state, true)
      case Array(v) =>
        if IsAttribute(key) then Run(SetAttribute(r.state, key, FromArray(Width(key), v)), false)
        else Run(r.state, true)
  }

  /** `restoreCameraOrientation` over the attribute list `keys`; every
      attribute keeps its number of coordinates. */
  function Restore(cam: CameraState, keys: seq<string>, store: Store): (r: Run<CameraState>)
    ensures WellFormed(cam) ==> WellFormed(r.state)
    decreases |keys|
  {
    if keys == [] then Run(cam, false)
    else RestoreStep(Restore(cam, keys[..|keys| - 1], store), store, keys[|keys| - 1])
  }

  /** The storage keys of an attribute list. */
  function StorageKeys(keys: seq<string>): set<string> {
    set k | k in keys :: StorageKey(k)
  }

  /** A stored item the restore callback throws on. */
  predicate ThrowsOn(store: Store, key: string) {
    StorageKey(key) in store
    && (store[StorageKey(key)].Malformed? || (store[StorageKey(key)].Array? && !IsAttribute(key)))
  }

  // ---------------------------------------------------------------------
  // Lemmas

  lemma StorageKeysAppend(keys: seq<string>, key: string)
    ensures StorageKeys(keys + [key]) == StorageKeys(keys) + {StorageKey(key)}
  {
    assert forall k :: k in keys + [key] <==> k in keys || k == key;
  }

  /** Once save has thrown, the rest of the list changes nothing. */
  lemma {:induction false} SaveStopsAfterThrow(cam: CameraState, keys: seq<string>, n: nat, store: Store)
    requires n <= |keys| && Save(cam, keys[..n], store).threw
    ensures Save(cam, keys, store) == Save(cam, keys[..n], store)
    decreases |keys|
  {
    if n < |keys| {
      assert keys[..|keys| - 1][..n] == keys[..n];
      SaveStopsAfterThrow(cam, keys[..|keys| - 1], n, store);
    } else {
      assert keys[..n] == keys;
    }
  }

  /** Save throws exactly when the list names something that is not a
      camera attribute. */
  lemma {:induction false} SaveThrowsIff(cam: CameraState, keys: seq<string>, store: Store)
    ensures Save(cam, keys, store).threw <==> exists i :: 0 <= i < |keys| && !IsAttribute(keys[i])
    decreases |keys|
  {
    if keys != [] {
      var init := keys[..|keys| - 1];
      SaveThrowsIff(cam, init, store);
      if exists i :: 0 <= i < |init| && !IsAttribute(init[i]) {
        var i :| 0 <= i < |init| && !IsAttribute(init[i]);
        assert keys[i] == init[i];
      }
      if exists i :: 0 <= i < |keys| && !IsAttribute(keys[i]) {
        var i :| 0 <= i < |keys| && !IsAttribute(keys[i]);
        if i < |init| {
          assert init[i] == keys[i];
        }
      }
    }
  }

  /** Different attributes have different storage keys. */
  lemma StorageKeyInjective(a: string, b: string)
    ensures StorageKey(a) == StorageKey(b) <==> a == b
  {
    if StorageKey(a) == StorageKey(b) {
      assert StorageKey(a)[7..] == a;
      assert StorageKey(b)[7..] == b;
    }
  }

  /** A save that completes writes every listed attribute's coordinates
      under its storage key, and every listed name is an attribute. */
  lemma {:induction false} SaveWrites(cam: CameraState, keys: seq<string>, store: Store)
    ensures var r := Save(cam, keys, store);
      !r.threw ==> forall k :: k in keys ==>
        && IsAttribute(k)
        && StorageKey(k) in r.state
        && r.state[StorageKey(k)] == Array(Attribute(cam, k).value)
    decreases |keys|
  {
    if keys != [] {
      var init := keys[..|keys| - 1];
      var key := keys[|keys| - 1];
      SaveWrites(cam, init, store);
      assert keys == init + [key];
      var r := Save(cam, keys, store);
      if !r.threw {
        forall k | k in keys
          ensures IsAttribute(k) && StorageKey(k) in r.state && r.state[StorageKey(k)] == Array(Attribute(cam, k).value)
        {
          if k != key {
            assert k in init;
            StorageKeyInjective(k, key);
          }
        }
      }
    }
  }

  /** Whether or not it completes, a save touches no key but the storage
      keys of the listed names. */
  lemma {:induction false} SaveKeepsOthers(cam: CameraState, keys: seq<string>, store: Store)
    ensures var r := Save(cam, keys, store);
      forall s :: s !in StorageKeys(keys) ==> (s in r.state <==> s in store) && (s in store ==> r.state[s] == store[s])
    decreases |keys|
  {
    if keys != [] {
      var init := keys[..|keys| - 1];
      var key := keys[|keys| - 1];
      SaveKeepsOthers(cam, init, store);
      assert keys == init + [key];
      StorageKeysAppend(init, key);
    }
  }

  /** Once restore has thrown, the rest of the list changes nothing. */
  lemma {:induction false} RestoreStopsAfterThrow(cam: CameraState, keys: seq<string>, n: nat, store: Store)
    requires n <= |keys| && Restore(cam, keys[..n], store).threw
    ensures Restore(cam, keys, store) == Restore(cam, keys[..n], store)
    decreases |keys|
  {
    if n < |keys| {
      assert keys[..|keys| - 1][..n] == keys[..n];
      RestoreStopsAfterThrow(cam, keys[..|keys| - 1], n, store);
    } else {
      assert keys[..n] == keys;
    }
  }

  /** Restore throws exactly when some listed key holds text that is not
      JSON, or an array for something that is not a camera attribute. */
  lemma {:induction false} RestoreThrowsIff(cam: CameraState, keys: seq<string>, store: Store)
    ensures Restore(cam, keys, store).threw <==> exists i :: 0 <= i < |keys| && ThrowsOn(store, keys[i])
    decreases |keys|
  {
    if keys != [] {
      var init := keys[..|keys| - 1];
      RestoreThrowsIff(cam, init, store);
      if exists i :: 0 <= i < |init| && ThrowsOn(store, init[i]) {
        var i :| 0 <= i < |init| && ThrowsOn(store, init[i]);
        assert keys[i] == init[i];
      }
      if exists i :: 0 <= i < |keys| && ThrowsOn(store, keys[i]) {
        var i :| 0 <= i < |keys| && ThrowsOn(store, keys[i]);
        if i < |init| {
          assert init[i] == keys[i];
        }
      }
    }
  }

  /** Restore changes only attributes that are listed and have an array
      stored: every other attribute keeps the camera's value. */
  lemma {:induction false} RestoreOnlyPresent(cam: CameraState, keys: seq<string>, store: Store)
    ensures var r := Restore(cam, keys, store);
      forall key :: IsAttribute(key) && (key !in keys || StorageKey(key) !in store || !store[StorageKey(key)].Array?)
        ==> Attribute(r.state, key) == Attribute(cam, key)
    decreases |keys|
  {
    if keys != [] {
      var init := keys[..|keys| - 1];
      RestoreOnlyPresent(cam, init, store);
      assert keys == init + [keys[|keys| - 1]];
      forall key | IsAttribute(key) && (key !in keys || StorageKey(key) !in store || !store[StorageKey(key)].Array?)
        ensures Attribute(Restore(cam, keys, store).state, key) == Attribute(cam, key)
      {
        assert key !in init || StorageKey(key) !in store || !store[StorageKey(key)].Array?;
      }
    }
  }

  /** Restoring from a store that holds none of the listed keys leaves the
      camera as it was and does not throw. */
  lemma {:induction false} RestoreFromEmpty(cam: CameraState, keys: seq<string>, store: Store)
    requires forall k :: k in keys ==> StorageKey(k) !in store
    ensures Restore(cam, keys, store) == Run(cam, false)
    decreases |keys|
  {
    if keys != [] {
      var init := keys[..|keys| - 1];
      assert forall k :: k in init ==> k in keys;
      RestoreFromEmpty(cam, init, store);
    }
  }

  /** Restoring from a store that holds, for every listed key, an array of
      that attribute of `cam` with its proper width: no exception, every
      listed attribute takes `cam`'s value and every other one keeps the
      restored camera's. */
  lemma {:induction false} RestoreWritten(cam: CameraState, cam0: CameraState, keys: seq<string>, store: Store)
    requires WellFormed(cam)
    requires forall k :: k in keys ==>
      IsAttribute(k) && StorageKey(k) in store && store[StorageKey(k)] == Array(Attribute(cam, k).value)
    ensures var r := Restore(cam0, keys, store);
      && !r.threw
      && (forall k :: k in keys ==> Attribute(r.state, k) == Attribute(cam, k))
      && (forall k :: k !in keys ==> Attribute(r.state, k) == Attribute(cam0, k))
    decreases |keys|
  {
    if keys != [] {
      var init := keys[..|keys| - 1];
      var key := keys[|keys| - 1];
      assert keys == init + [key];
      assert forall k :: k in init ==> k in keys;
      RestoreWritten(cam, cam0, init, store);
      var v := Attribute(cam, key).value;
      assert FromArray(Width(key), v) == v;
    }
  }

  /** Save then restore, on a camera with proper attributes and a list of
      camera attributes only: neither throws, the restored camera takes
      every listed attribute of the saved one, and keeps its own value for
      the others. */
  lemma RoundTrip(cam: CameraState, cam0: CameraState, keys: seq<string>, store: Store)
    requires WellFormed(cam)
    requires forall k :: k in keys ==> IsAttribute(k)
    ensures var saved := Save(cam, keys, store);
      var r := Restore(cam0, keys, saved.state);
      && !saved.threw && !r.threw
      && (forall k :: k in keys ==> Attribute(r.state, k) == Attribute(cam, k))
      && (forall k :: k !in keys ==> Attribute(r.state, k) == Attribute(cam0, k))
  {
    SaveThrowsIff(cam, keys, store);
    SaveWrites(cam, keys, store);
    SaveKeepsOthers(cam, keys, store);
    RestoreWritten(cam, cam0, keys, Save(cam, keys, store).state);
  }

  /** With the attribute name spelled as the camera spells it, the save on
      unload followed by the restore on the next load brings back the whole
      orientation. */
  lemma IntendedRoundTrip(cam: CameraState, cam0: CameraState, store: Store)
    requires WellFormed(cam)
    ensures var saved := Save(cam, IntendedKeys, store);
      var r := Restore(cam0, IntendedKeys, saved.state);
      !saved.threw && r == Run(cam, false)
  {
    RoundTrip(cam, cam0, IntendedKeys, store);
    var r := Restore(cam0, IntendedKeys, Save(cam, IntendedKeys, store).state);
    assert Attribute(r.state, "position") == Attribute(cam, "position");
    assert Attribute(r.state, "quaternion") == Attribute(cam, "quaternion");
    assert Attribute(r.state, "up") == Attribute(cam, "up");
  }

  /** As written, save stores `position` and then throws on `quarternion`,
      so `quaternion` and `up` are never stored. */
  lemma AsWrittenSaveStopsAtTypo(cam: CameraState, store: Store)
    ensures Save(cam, AsWrittenKeys, store) == Run(store[StorageKey("position") := Array(cam.position)], true)
  {
    var keys := AsWrittenKeys;
    assert keys[..2][..1] == keys[..1] == ["position"];
    assert keys[..1][..0] == [];
    assert Save(cam, keys[..1], store) == Run(store[StorageKey("position") := Array(cam.position)], false);
    assert Attribute(cam, "quarternion") == None;
    assert Save(cam, keys[..2], store) == Run(store[StorageKey("position") := Array(cam.position)], true);
  }

  /** As written, starting from a session store that holds neither
      `camera.up` nor `camera.quarternion` (a new session), save on unload
      and restore on the next load bring back `position` only: the new
      camera keeps its own `quaternion` and `up`, so a saved camera whose
      `up` differs from the new one's is not reproduced. */
  lemma AsWrittenLosesUp(cam: CameraState, cam0: CameraState, store: Store)
    requires WellFormed(cam)
    requires StorageKey("up") !in store && StorageKey("quarternion") !in store
    ensures var saved := Save(cam, AsWrittenKeys, store);
      var r := Restore(cam0, AsWrittenKeys, saved.state);
      && saved.threw
      && r == Run(cam0.(position := cam.position), false)
      && (cam.up != cam0.up ==> r.state != cam)
  {
    AsWrittenSaveStopsAtTypo(cam, store);
    var keys := AsWrittenKeys;
    var s := store[StorageKey("position") := Array(cam.position)];
    StorageKeyInjective("position", "up");
    StorageKeyInjective("position", "quarternion");
    assert FromArray(3, cam.position) == cam.position;
    assert keys[..2][..1] == keys[..1] == ["position"];
    assert keys[..1][..0] == [];
    var r1 := Run(cam0.(position := cam.position), false);
    assert Restore(cam0, keys[..1], s) == r1;
    assert Restore(cam0, keys[..2], s) == r1;
    assert Restore(cam0, keys, s) == r1;
  }

  // ---------------------------------------------------------------------
  // The objects `script.js` updates in place

  /** The camera's persisted attributes. */
  class Camera {
    var position: seq<Component>
    var quaternion: seq<Component>
    var up: seq<Component>

    function State(): CameraState
      reads this
    {
      CameraState(position, quaternion, up)
    }

    constructor (position: seq<Component>, quaternion: seq<Component>, up: seq<Component>)
      ensures State() == CameraState(position, quaternion, up)
    {
      this.position := position;
      this.quaternion := quaternion;
      this.up := up;
    }

    /** `camera[key].fromArray(values)`. */
    method FromArrayInto(key: string, values: seq<Component>)
      requires IsAttribute(key)
      modifies this
      ensures State() == SetAttribute(old(State()), key, FromArray(Width(key), values))
    {
      var v := FromArray(Width(key), values);
      if key == "position" {
        position := v;
      } else if key == "quaternion" {
        quaternion := v;
      } else {
        up := v;
      }
    }
  }

  /** `sessionStorage`. */
  class SessionStorage {
    var items: Store

    constructor ()
      ensures items == map[]
    {
      items := map[];
    }
  }

  /** `saveCameraOrientation()` with attribute list `keys`: `threw` is the
      TypeError on a name that is not a camera attribute. */
  method SaveCameraOrientation(camera: Camera, storage: SessionStorage, keys: seq<string>)
    returns (threw: bool)
    modifies storage
    ensures Run(storage.items, threw) == Save(camera.State(), keys, old(storage.items))
  {
    ghost var store0 := storage.items;
    var i := 0;
    threw := false;
    while i < |keys| && !threw
      invariant 0 <= i <= |keys|
      invariant Run(storage.items, threw) == Save(camera.State(), keys[..i], store0)
    {
      var key := keys[i];
      assert keys[..i + 1] == keys[..i] + [key];
      var attribute := Attribute(camera.State(), key);
      if attribute.Some? {
        storage.items := storage.items[StorageKey(key) := Array(attribute.value)];
      } else {
        threw := true;
      }
      i := i + 1;
    }
    if threw {
      SaveStopsAfterThrow(camera.State(), keys, i, store0);
    } else {
      assert keys[..i] == keys;
    }
  }

  /** `restoreCameraOrientation()` with attribute list `keys`: `threw` is
      the SyntaxError on stored text that is not JSON, or the TypeError on
      an array stored for a name that is not a camera attribute. */
  method RestoreCameraOrientation(camera: Camera, storage: SessionStorage, keys: seq<string>)
    returns (threw: bool)
    modifies camera
    ensures Run(camera.State(), threw) == Restore(old(camera.State()), keys, storage.items)
  {
    ghost var cam0 := camera.State();
    var i := 0;
    threw := false;
    while i < |keys| && !threw
      invariant 0 <= i <= |keys|
      invariant Run(camera.State(), threw) == Restore(cam0, keys[..i], storage.items)
    {
      var key := keys[i];
      assert keys[..i + 1] == keys[..i] + [key];
      var storageKey := StorageKey(key);
      if storageKey in storage.items {
        match storage.items[storageKey]
        case Falsy =>
        case Malformed =>
          threw := true;
        case Array(values) =>
          if IsAttribute(key) {
            camera.FromArrayInto(key, values);
          } else {
            threw := true;
          }
      }
      i := i + 1;
    }
    if threw {
      RestoreStopsAfterThrow(cam0, keys, i, storage.items);
    } else {
      assert keys[..i] == keys;
    }
  }
}

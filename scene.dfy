/** `renderPopulation`: take the current meshes out of the scene, then build
    one mesh per county for the chosen year, put each into the scene and keep
    them as the new `meshes`. Geometry, materials and transforms are left
    out: a mesh is a fresh identity tagged with its county and with the
    extrusion, luminance and vertical offset it was built from. */
module Scene {
  import opened Wrappers
  import opened JsNumber
  import opened Census
  import opened Scales

  /** A county as the geometry step produces it; the outline is left out. */
  datatype County = County(id: string, name: string)

  /** A mesh: its identity, the county it draws, its extrusion depth, its
      luminance and its vertical offset. NaN values are `None`. */
  datatype Mesh = Mesh(id: nat, county: string, extrusion: Option<real>, luminance: Option<real>, offset: Option<real>)

  /** The population `getPopulation` hands to the scales for a county that
      has census data: the stored cell, or `undefined` for a year the county
      has no entry for, which the scales read as NaN. */
  function PopulationOf(l: Lookup): Num {
    match l
    case Found(v) => v
    case _ => NaN
  }

  /** `translateZ(-extrusion)`: the mesh is moved down by its whole depth. */
  function Sink(extrusion: Option<real>): Option<real> {
    match extrusion
    case None => None
    case Some(e) => Some(-e)
  }

  /** The mesh built for one county with population `population`. */
  function MeshFor(county: County, population: Num, maxPopulation: int, id: nat): (m: Mesh)
    ensures m.id == id && m.county == county.id
    ensures m.extrusion.None? <==> population.NaN?
    ensures m.luminance.None? <==> population.NaN?
    ensures m.offset.None? <==> m.extrusion.None?
    ensures m.extrusion.Some? ==> m.offset == Some(-m.extrusion.value)
    ensures population.Int? && 0 <= population.value <= maxPopulation ==>
      0.0 <= m.extrusion.value <= MaxExtrusion && 0.0 <= m.luminance.value <= 1.0
  {
    var extrusion := Extrusion(population, maxPopulation);
    Mesh(id, county.id, extrusion, Luminance(population, maxPopulation), Sink(extrusion))
  }

  /** The first `n` counties all have an entry in the census table. */
  predicate PresentUpTo(counties: seq<County>, data: CensusData, n: nat) {
    n <= |counties| && forall i :: 0 <= i < n ==> counties[i].id in data
  }

  predicate AllPresent(counties: seq<County>, data: CensusData) {
    PresentUpTo(counties, data, |counties|)
  }

  /** The meshes `counties.map(…)` builds for the first `n` counties, all of
      which have census data, with identities allocated from `firstId` on. */
  function BuildMeshes(counties: seq<County>, n: nat, data: CensusData, year: Num, maxPopulation: int, firstId: nat): (ms: seq<Mesh>)
    requires PresentUpTo(counties, data, n)
    ensures |ms| == n
  {
    if n == 0 then []
    else
      var c := counties[n - 1];
      BuildMeshes(counties, n - 1, data, year, maxPopulation, firstId)
        + [MeshFor(c, PopulationOf(GetPopulation(data, c.id, year)), maxPopulation, firstId + n - 1)]
  }

  /** The identities of some meshes. */
  function Ids(meshes: seq<Mesh>): set<nat>
    decreases |meshes|
  {
    if meshes == [] then {} else Ids(meshes[..|meshes| - 1]) + {meshes[|meshes| - 1].id}
  }

  function FirstMissingFrom(counties: seq<County>, data: CensusData, i: nat): (k: nat)
    requires PresentUpTo(counties, data, i)
    ensures i <= k && PresentUpTo(counties, data, k)
    ensures k < |counties| ==> counties[k].id !in data
    decreases |counties| - i
  {
    if i == |counties| || counties[i].id !in data then i
    else FirstMissingFrom(counties, data, i + 1)
  }

  /** The index of the first county without census data (`|counties|` when
      there is none): `getPopulation` throws a TypeError there. */
  function FirstMissing(counties: seq<County>, data: CensusData): (k: nat)
    ensures PresentUpTo(counties, data, k)
    ensures k < |counties| ==> counties[k].id !in data
  {
    FirstMissingFrom(counties, data, 0)
  }

  /** The scene after a render: the old scene without the old meshes, with
      the new ones added. */
  function NextScene(scene: set<nat>, oldMeshes: seq<Mesh>, newMeshes: seq<Mesh>): set<nat> {
    scene - Ids(oldMeshes) + Ids(newMeshes)
  }

  // ---------------------------------------------------------------------
  // Lemmas

  lemma IdsAppend(ms: seq<Mesh>, m: Mesh)
    ensures Ids(ms + [m]) == Ids(ms) + {m.id}
  {
    assert (ms + [m])[..|ms|] == ms;
  }

  /** One more county with data adds its mesh at the end. */
  lemma BuildMeshesStep(counties: seq<County>, j: nat, data: CensusData, year: Num, maxPopulation: int, firstId: nat)
    requires PresentUpTo(counties, data, j) && j < |counties| && counties[j].id in data
    ensures PresentUpTo(counties, data, j + 1)
    ensures BuildMeshes(counties, j + 1, data, year, maxPopulation, firstId)
      == BuildMeshes(counties, j, data, year, maxPopulation, firstId)
         + [MeshFor(counties[j], PopulationOf(GetPopulation(data, counties[j].id, year)), maxPopulation, firstId + j)]
  {
  }

  lemma {:induction false} IdsHas(ms: seq<Mesh>, i: nat)
    requires i < |ms|
    ensures ms[i].id in Ids(ms)
    decreases |ms|
  {
    if i < |ms| - 1 {
      IdsHas(ms[..|ms| - 1], i);
    }
  }

  lemma DisjointUnionSize(a: set<nat>, b: set<nat>)
    requires forall x :: x in a ==> x !in b
    ensures |a + b| == |a| + |b|
  {
    assert a * b == {};
  }

  /** The first county without data is where a render stops, and then not
      every county has data. */
  lemma FirstMissingAt(counties: seq<County>, data: CensusData, j: nat)
    requires PresentUpTo(counties, data, j) && j < |counties| && counties[j].id !in data
    ensures FirstMissing(counties, data) == j
    ensures !AllPresent(counties, data)
  {
  }

  /** When every county has data, a render never stops early. */
  lemma FirstMissingNone(counties: seq<County>, data: CensusData)
    requires AllPresent(counties, data)
    ensures FirstMissing(counties, data) == |counties|
  {
  }

  lemma {:induction false} IdsMembers(meshes: seq<Mesh>)
    ensures forall x :: x in Ids(meshes) <==> exists i :: 0 <= i < |meshes| && meshes[i].id == x
    decreases |meshes|
  {
    if meshes != [] {
      var init := meshes[..|meshes| - 1];
      IdsMembers(init);
      forall x | x in Ids(meshes) ensures exists i :: 0 <= i < |meshes| && meshes[i].id == x {
        if x in Ids(init) {
          var i :| 0 <= i < |init| && init[i].id == x;
          assert meshes[i] == init[i];
        } else {
          assert meshes[|meshes| - 1].id == x;
        }
      }
    }
  }

  /** One mesh per county, in county order: mesh `i` draws county `i`, has
      identity `firstId + i`, carries that county's scaled population, and
      sits minus its extrusion below the base. */
  lemma {:induction false} BuildMeshesPointwise(counties: seq<County>, n: nat, data: CensusData, year: Num, maxPopulation: int, firstId: nat)
    requires PresentUpTo(counties, data, n)
    ensures var ms := BuildMeshes(counties, n, data, year, maxPopulation, firstId);
      && |ms| == n
      && forall i :: 0 <= i < n ==>
        var p := PopulationOf(GetPopulation(data, counties[i].id, year));
        && ms[i].id == firstId + i
        && ms[i].county == counties[i].id
        && ms[i].extrusion == Extrusion(p, maxPopulation)
        && ms[i].luminance == Luminance(p, maxPopulation)
        && ms[i].offset == Sink(ms[i].extrusion)
    decreases n
  {
    if n > 0 {
      BuildMeshesPointwise(counties, n - 1, data, year, maxPopulation, firstId);
    }
  }

  /** Mesh `i` has identity `firstId + i`. */
  lemma {:induction false} BuildMeshesTags(counties: seq<County>, n: nat, data: CensusData, year: Num, maxPopulation: int, firstId: nat)
    requires PresentUpTo(counties, data, n)
    ensures var ms := BuildMeshes(counties, n, data, year, maxPopulation, firstId);
      |ms| == n && forall i :: 0 <= i < n ==> ms[i].id == firstId + i
    decreases n
  {
    if n > 0 {
      BuildMeshesTags(counties, n - 1, data, year, maxPopulation, firstId);
    }
  }

  lemma {:induction false} DistinctIdsSize(ms: seq<Mesh>)
    requires forall i, j :: 0 <= i < j < |ms| ==> ms[i].id != ms[j].id
    ensures |Ids(ms)| == |ms|
    decreases |ms|
  {
    if ms != [] {
      var init := ms[..|ms| - 1];
      DistinctIdsSize(init);
      IdsMembers(init);
      assert ms[|ms| - 1].id !in Ids(init);
    }
  }

  lemma ConsecutiveIds(ms: seq<Mesh>, firstId: nat)
    requires forall i :: 0 <= i < |ms| ==> ms[i].id == firstId + i
    ensures forall x :: x in Ids(ms) <==> firstId <= x < firstId + |ms|
    ensures |Ids(ms)| == |ms|
  {
    IdsMembers(ms);
    forall x | firstId <= x < firstId + |ms| ensures x in Ids(ms) {
      assert ms[x - firstId].id == x;
    }
    DistinctIdsSize(ms);
  }

  /** The new meshes take exactly the identities `firstId` up to
      `firstId + n`, all different. */
  lemma BuildMeshesIds(counties: seq<County>, n: nat, data: CensusData, year: Num, maxPopulation: int, firstId: nat)
    requires PresentUpTo(counties, data, n)
    ensures var ms := BuildMeshes(counties, n, data, year, maxPopulation, firstId);
      && (forall x :: x in Ids(ms) <==> firstId <= x < firstId + n)
      && |Ids(ms)| == n
  {
    BuildMeshesTags(counties, n, data, year, maxPopulation, firstId);
    ConsecutiveIds(BuildMeshes(counties, n, data, year, maxPopulation, firstId), firstId);
  }

  /** When the new meshes take fresh identities, a render leaves in the scene
      no old mesh, every new mesh, and everything else that was there: its
      size grows by the number of counties, less the old meshes that were in
      it. */
  lemma SceneAfterRender(scene: set<nat>, oldMeshes: seq<Mesh>, counties: seq<County>, data: CensusData,
                         year: Num, maxPopulation: int, firstId: nat)
    requires AllPresent(counties, data)
    requires forall x :: x in scene ==> x < firstId
    ensures var ms := BuildMeshes(counties, |counties|, data, year, maxPopulation, firstId);
      var next := NextScene(scene, oldMeshes, ms);
      && (forall i :: 0 <= i < |oldMeshes| && oldMeshes[i].id < firstId ==> oldMeshes[i].id !in next)
      && (forall i :: 0 <= i < |ms| ==> ms[i].id in next)
      && (forall x :: x in scene && x !in Ids(oldMeshes) ==> x in next)
      && |next| == |scene - Ids(oldMeshes)| + |counties|
  {
    var ms := BuildMeshes(counties, |counties|, data, year, maxPopulation, firstId);
    var rest := scene - Ids(oldMeshes);
    var next := rest + Ids(ms);
    BuildMeshesIds(counties, |counties|, data, year, maxPopulation, firstId);
    forall i | 0 <= i < |oldMeshes| && oldMeshes[i].id < firstId
      ensures oldMeshes[i].id !in next
    {
      IdsHas(oldMeshes, i);
    }
    forall i | 0 <= i < |ms|
      ensures ms[i].id in next
    {
      IdsHas(ms, i);
    }
    DisjointUnionSize(rest, Ids(ms));
  }

  /** One turn of the loop in `BuildInto`: adding the next county's mesh
      keeps the loop's invariant. */
  lemma BuildIntoStep(scene: set<nat>, counties: seq<County>, data: CensusData, year: Num, maxPopulation: int, first: nat,
                      j: nat, added: set<nat>, built: seq<Mesh>)
    requires PresentUpTo(counties, data, j) && j < |counties| && counties[j].id in data
    requires built == BuildMeshes(counties, j, data, year, maxPopulation, first)
    requires added == scene + Ids(built)
    requires forall x :: x in added ==> x < first + j
    ensures var m := MeshFor(counties[j], PopulationOf(GetPopulation(data, counties[j].id, year)), maxPopulation, first + j);
      && PresentUpTo(counties, data, j + 1)
      && built + [m] == BuildMeshes(counties, j + 1, data, year, maxPopulation, first)
      && added + {m.id} == scene + Ids(built + [m])
      && forall x :: x in added + {m.id} ==> x < first + j + 1
  {
    var m := MeshFor(counties[j], PopulationOf(GetPopulation(data, counties[j].id, year)), maxPopulation, first + j);
    BuildMeshesStep(counties, j, data, year, maxPopulation, first);
    IdsAppend(built, m);
  }

  /** The loop of lines 104-133: one mesh per county, identities from
      `first` on, each added to `scene` as it is built, until the first
      county without census data, where `getPopulation` throws (`ok`
      false). */
  method BuildInto(scene: set<nat>, counties: seq<County>, data: CensusData, year: Num, maxPopulation: int, first: nat)
    returns (added: set<nat>, built: seq<Mesh>, ok: bool)
    requires forall x :: x in scene ==> x < first
    ensures ok <==> AllPresent(counties, data)
    ensures built == BuildMeshes(counties, FirstMissing(counties, data), data, year, maxPopulation, first)
    ensures added == scene + Ids(built)
    ensures forall x :: x in added ==> x < first + |built|
  {
    added := scene;
    built := [];
    var j := 0;
    while j < |counties| && counties[j].id in data
      invariant PresentUpTo(counties, data, j)
      invariant built == BuildMeshes(counties, j, data, year, maxPopulation, first)
      invariant added == scene + Ids(built) && |built| == j
      invariant forall x :: x in added ==> x < first + j
    {
      var county := counties[j];
      var population := GetPopulation(data, county.id, year);
      var mesh := MeshFor(county, PopulationOf(population), maxPopulation, first + j);
      BuildIntoStep(scene, counties, data, year, maxPopulation, first, j, added, built);
      added := added + {mesh.id};
      built := built + [mesh];
      j := j + 1;
    }
    if j < |counties| {
      FirstMissingAt(counties, data, j);
      ok := false;
    } else {
      FirstMissingNone(counties, data);
      ok := true;
    }
  }

  // ---------------------------------------------------------------------
  // The scene as `renderPopulation` keeps it

  /** The global `scene` (as the identities of the objects in it), the global
      `meshes`, and the allocator of fresh object identities. */
  class SceneManager {
    var scene: set<nat>
    var meshes: seq<Mesh>
    var nextId: nat

    ghost predicate Valid()
      reads this
    {
      (forall x :: x in scene ==> x < nextId)
      && (forall i :: 0 <= i < |meshes| ==> meshes[i].id < nextId)
    }

    /** An empty scene and no meshes yet. */
    constructor ()
      ensures Valid() && scene == {} && meshes == []
    {
      scene := {};
      meshes := [];
      nextId := 0;
    }

    /** Lines 99-102: every current mesh leaves the scene. */
    method RemoveMeshes()
      requires Valid()
      modifies this
      ensures Valid()
      ensures scene == old(scene) - Ids(meshes)
      ensures meshes == old(meshes) && nextId == old(nextId)
    {
      ghost var scene0 := scene;
      var i := 0;
      while i < |meshes|
        invariant 0 <= i <= |meshes|
        invariant scene == scene0 - Ids(meshes[..i])
        invariant Valid() && nextId == old(nextId) && meshes == old(meshes)
      {
        IdsAppend(meshes[..i], meshes[i]);
        assert meshes[..i + 1] == meshes[..i] + [meshes[i]];
        scene := scene - {meshes[i].id};
        i := i + 1;
      }
      assert meshes[..i] == meshes;
    }

    /** Lines 104-133 up to the assignment, on the fields: `BuildInto`
        with this scene and the next free identity. */
    method AddMeshes(counties: seq<County>, data: CensusData, year: Num, maxPopulation: int)
      returns (built: seq<Mesh>, ok: bool)
      requires Valid()
      modifies this
      ensures Valid() && nextId == old(nextId) + |built|
      ensures ok <==> AllPresent(counties, data)
      ensures built == BuildMeshes(counties, FirstMissing(counties, data), data, year, maxPopulation, old(nextId))
      ensures scene == old(scene) + Ids(built)
      ensures meshes == old(meshes)
    {
      var added;
      added, built, ok := BuildInto(scene, counties, data, year, maxPopulation, nextId);
      scene, nextId := added, nextId + |built|;
    }

    /** `renderPopulation(year)`. When a county has no census data,
        `getPopulation` throws: `ok` is false, `meshes` keeps its old value
        although those meshes have left the scene, and the meshes built for
        the counties before it stay in the scene. */
    method RenderPopulation(counties: seq<County>, data: CensusData, year: Num, maxPopulation: int)
      returns (ok: bool)
      requires Valid()
      modifies this
      ensures Valid()
      ensures ok <==> AllPresent(counties, data)
      ensures ok ==>
        && meshes == BuildMeshes(counties, |counties|, data, year, maxPopulation, old(nextId))
        && scene == NextScene(old(scene), old(meshes), meshes)
      ensures !ok ==>
        && meshes == old(meshes)
        && scene == NextScene(old(scene), old(meshes),
             BuildMeshes(counties, FirstMissing(counties, data), data, year, maxPopulation, old(nextId)))
    {
      RemoveMeshes();
      var first := nextId;
      var built;
      built, ok := AddMeshes(counties, data, year, maxPopulation);
      if ok {
        BuildMeshesTags(counties, |counties|, data, year, maxPopulation, first);
        meshes := built;
      }
    }
  }
}

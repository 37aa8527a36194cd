/**
 The NamespacedCloudProfile admission mutator: once the authoritative
 reconciliation has produced a status for the current generation, it merges the
 provider configuration written in the profile's spec into the provider
 configuration recorded in its status.
 - Machine images are united by name; an image named on both sides gets the
   status versions followed by the spec versions (no deduplication).
 - Machine types are united by name; on both sides the status entry wins.
 - Names found only in the status pass through unchanged.
 */
module Mutator {
  import opened V1alpha1
  import opened Utils

  datatype Option<T> = None | Some(value: T)

  /** The lifecycle signals of a `NamespacedCloudProfile` that the gate reads;
      raw provider configurations are opaque bytes. */
  datatype NamespacedCloudProfile = NamespacedCloudProfile(
    deletionTimestamp: Option<int>,
    generation: int,
    observedGeneration: int,
    specProviderConfig: Option<seq<bv8>>,
    statusProviderConfig: Option<seq<bv8>>)

  // ---------------------------------------------------------------------------
  // Reference definitions of the two merges, on the name indexes of the inputs
  // ---------------------------------------------------------------------------

  /** The image index after the spec names in `done` have been merged into
      `statusImages`: a merged name maps to the status versions followed by the
      spec versions, or to the spec entry when the status lacks it. */
  ghost function MergeImageIndexes<V>(specImages: map<string, MachineImage<V>>, statusImages: map<string, MachineImage<V>>,
                                      done: set<string>): map<string, MachineImage<V>>
  {
    map n | n in statusImages.Keys + (specImages.Keys * done) ::
      if n in specImages && n in done then
        if n in statusImages then Entry(n, statusImages[n].payload + specImages[n].payload) else specImages[n]
      else statusImages[n]
  }

  /** Merging one more spec name updates exactly that name. */
  lemma MergeImageIndexesStep<V>(specImages: map<string, MachineImage<V>>, statusImages: map<string, MachineImage<V>>,
                                 done: set<string>, key: string)
    requires KeyedByName(specImages) && key in specImages && key !in done
    ensures specImages[key].name == key
    ensures key in MergeImageIndexes(specImages, statusImages, done) <==> key in statusImages
    ensures key in statusImages ==> MergeImageIndexes(specImages, statusImages, done)[key] == statusImages[key]
    ensures MergeImageIndexes(specImages, statusImages, done + {key}) ==
            MergeImageIndexes(specImages, statusImages, done)[key :=
              if key in statusImages then Entry(key, statusImages[key].payload + specImages[key].payload)
              else specImages[key]]
  {
  }

  /** What `mergeMachineImages(spec, status)` holds, keyed by name. */
  ghost function MergedImages<V>(spec: seq<MachineImage<V>>, status: seq<MachineImage<V>>): (r: map<string, MachineImage<V>>)
    ensures r.Keys == Names(spec) + Names(status)
    ensures KeyedByName(r)
  {
    CreateMapFromSliceKeys(spec);
    CreateMapFromSliceKeys(status);
    var specImages := CreateMapFromSlice(spec);
    MergeImageIndexes(specImages, CreateMapFromSlice(status), specImages.Keys)
  }

  /** What `mergeMachineTypes(spec, status)` holds, keyed by name. */
  ghost function MergedTypes<F>(spec: seq<MachineType<F>>, status: seq<MachineType<F>>): (r: map<string, MachineType<F>>)
    ensures r.Keys == Names(spec) + Names(status)
    ensures KeyedByName(r)
  {
    CreateMapFromSliceKeys(spec);
    CreateMapFromSliceKeys(status);
    var specTypes, statusTypes := CreateMapFromSlice(spec), CreateMapFromSlice(status);
    map n | n in specTypes.Keys + statusTypes.Keys ::
      if n in statusTypes then statusTypes[n] else specTypes[n]
  }

  // ---------------------------------------------------------------------------
  // The merges as the source runs them: index both lists, walk the spec index
  // in an unspecified order updating the status index in place, list the result
  // ---------------------------------------------------------------------------

  /** `mergeMachineImages`: every name of either list exactly once; a name on
      both sides carries the status versions then the spec versions. */
  method MergeMachineImages<V>(specMachineImages: seq<MachineImage<V>>, statusMachineImages: seq<MachineImage<V>>)
    returns (merged: seq<MachineImage<V>>)
    ensures Lists(merged, MergedImages(specMachineImages, statusMachineImages))
  {
    var specImages := CreateMapFromSlice(specMachineImages);
    var statusImages := CreateMapFromSlice(statusMachineImages);
    ghost var initialStatus, done := statusImages, {};
    var pending := specImages.Keys;
    while pending != {}
      invariant pending !! done && pending + done == specImages.Keys
      invariant statusImages == MergeImageIndexes(specImages, initialStatus, done)
      decreases pending
    {
      var key :| key in pending;
      var specMachineImage := specImages[key];
      MergeImageIndexesStep(specImages, initialStatus, done, key);
      if specMachineImage.name !in statusImages {
        statusImages := statusImages[specMachineImage.name := specMachineImage];
      } else {
        var mergedVersions := [];
        mergedVersions := mergedVersions + statusImages[specMachineImage.name].payload;
        mergedVersions := mergedVersions + specImages[specMachineImage.name].payload;
        assert mergedVersions == initialStatus[key].payload + specImages[key].payload;
        statusImages := statusImages[specMachineImage.name := Entry(specMachineImage.name, mergedVersions)];
      }
      pending, done := pending - {key}, done + {key};
    }
    assert statusImages == MergedImages(specMachineImages, statusMachineImages);
    ghost var order;
    merged, order := CollectValues(statusImages);
  }

  /** `mergeMachineTypes`: every name of either list exactly once; a name on
      both sides keeps its status entry. */
  method MergeMachineTypes<F>(specMachineTypes: seq<MachineType<F>>, statusMachineTypes: seq<MachineType<F>>)
    returns (merged: seq<MachineType<F>>)
    ensures Lists(merged, MergedTypes(specMachineTypes, statusMachineTypes))
  {
    var specTypes := CreateMapFromSlice(specMachineTypes);
    var statusTypes := CreateMapFromSlice(statusMachineTypes);
    ghost var initialStatus := statusTypes;
    var pending := specTypes.Keys;
    while pending != {}
      invariant pending <= specTypes.Keys
      invariant statusTypes.Keys == initialStatus.Keys + (specTypes.Keys - pending)
      invariant forall n :: n in statusTypes ==>
        statusTypes[n] == if n in initialStatus then initialStatus[n] else specTypes[n]
      decreases pending
    {
      var key :| key in pending;
      var specMachineType := specTypes[key];
      if specMachineType.name !in statusTypes {
        statusTypes := statusTypes[specMachineType.name := specMachineType];
      }
      pending := pending - {key};
    }
    assert statusTypes == MergedTypes(specMachineTypes, statusMachineTypes);
    ghost var order;
    merged, order := CollectValues(statusTypes);
  }

  // ---------------------------------------------------------------------------
  // The gate and the mutation
  // ---------------------------------------------------------------------------

  /** Skip profiles being deleted, profiles whose observed generation is not
      their generation, and profiles missing either provider config. The
      `ensures` only documents the four conditions under which the merge runs;
      what skipping means for the status config is stated by `Mutate`. */
  function ShouldSkipMutation(profile: NamespacedCloudProfile): (skip: bool)
    ensures !skip <==>
      && profile.deletionTimestamp.None?
      && profile.generation == profile.observedGeneration
      && profile.specProviderConfig.Some?
      && profile.statusProviderConfig.Some?
  {
    || profile.deletionTimestamp.Some?
    || profile.generation != profile.observedGeneration
    || profile.specProviderConfig.None?
    || profile.statusProviderConfig.None?
  }

  /** The merge/skip flow of `Mutate`. `uniformSpecConfig` and `statusConfig`
      stand for the decoded (and, for the spec, normalised) provider configs. */
  method Mutate<V, F>(profile: NamespacedCloudProfile, uniformSpecConfig: CloudProfileConfig<V, F>,
                      statusConfig: CloudProfileConfig<V, F>)
    modifies statusConfig
    ensures ShouldSkipMutation(profile) ==> unchanged(statusConfig)
    ensures !ShouldSkipMutation(profile) ==>
      Lists(statusConfig.machineImages,
            MergedImages(old(uniformSpecConfig.machineImages), old(statusConfig.machineImages)))
    ensures !ShouldSkipMutation(profile) ==>
      Lists(statusConfig.machineTypes,
            MergedTypes(old(uniformSpecConfig.machineTypes), old(statusConfig.machineTypes)))
  {
    if ShouldSkipMutation(profile) {
      return;
    }
    statusConfig.machineImages := MergeMachineImages(uniformSpecConfig.machineImages, statusConfig.machineImages);
    statusConfig.machineTypes := MergeMachineTypes(uniformSpecConfig.machineTypes, statusConfig.machineTypes);
  }

  // ---------------------------------------------------------------------------
  // Properties of the image merge
  // ---------------------------------------------------------------------------

  /** An image named in both lists keeps its name and gets the versions of the
      status entry followed by those of the spec entry (the last entry of each
      name on each side), with nothing removed. */
  lemma ImagesOnBothSidesConcatenate<V>(spec: seq<MachineImage<V>>, status: seq<MachineImage<V>>, i: int, j: int)
    requires LastOfName(status, i) && LastOfName(spec, j) && status[i].name == spec[j].name
    ensures MergedImages(spec, status)[spec[j].name] == Entry(spec[j].name, status[i].payload + spec[j].payload)
  {
    CreateMapFromSliceLastWins(status, i);
    CreateMapFromSliceLastWins(spec, j);
  }

  /** An image named only in the spec is inserted exactly as the spec has it. */
  lemma SpecOnlyImageInserted<V>(spec: seq<MachineImage<V>>, status: seq<MachineImage<V>>, j: int)
    requires LastOfName(spec, j) && spec[j].name !in Names(status)
    ensures MergedImages(spec, status)[spec[j].name] == spec[j]
  {
    CreateMapFromSliceLastWins(spec, j);
  }

  /** An image named only in the status passes through unchanged. */
  lemma StatusOnlyImageUnchanged<V>(spec: seq<MachineImage<V>>, status: seq<MachineImage<V>>, i: int)
    requires LastOfName(status, i) && status[i].name !in Names(spec)
    ensures MergedImages(spec, status)[status[i].name] == status[i]
  {
    CreateMapFromSliceLastWins(status, i);
  }

  /** Merging an empty list into either side gives back the other side's index. */
  lemma ImagesEmptySide<V>(spec: seq<MachineImage<V>>, status: seq<MachineImage<V>>)
    ensures MergedImages([], status) == CreateMapFromSlice(status)
    ensures MergedImages(spec, []) == CreateMapFromSlice(spec)
  {
  }

  /** The image merge is not idempotent: merging the same spec into a status
      that already holds its result appends the spec versions a second time. */
  lemma ReMergeImagesAppendsAgain<V>(spec: seq<MachineImage<V>>, status: seq<MachineImage<V>>,
                                     merged: seq<MachineImage<V>>, n: string)
    requires Lists(merged, MergedImages(spec, status))
    requires n in CreateMapFromSlice(spec)
    ensures n in MergedImages(spec, status) && n in MergedImages(spec, merged)
    ensures MergedImages(spec, merged)[n].payload ==
            MergedImages(spec, status)[n].payload + CreateMapFromSlice(spec)[n].payload
    ensures |MergedImages(spec, merged)[n].payload| ==
            |MergedImages(spec, status)[n].payload| + |CreateMapFromSlice(spec)[n].payload|
  {
    var specImages, once := CreateMapFromSlice(spec), MergedImages(spec, status);
    CreateMapFromSliceKeys(spec);
    CreateMapFromSliceOfListing(merged, once);
    assert MergedImages(spec, merged) == MergeImageIndexes(specImages, once, specImages.Keys);
  }

  /** The end-to-end example: spec `ubuntu[v1]` into status `ubuntu[v1], coreos[v2]`
      gives `ubuntu[v1, v1]` and an untouched `coreos[v2]`. */
  lemma ImagesScenario<V>(v1: V, v2: V)
    ensures MergedImages([Entry("ubuntu", [v1])], [Entry("ubuntu", [v1]), Entry("coreos", [v2])])
         == map["ubuntu" := Entry("ubuntu", [v1, v1]), "coreos" := Entry("coreos", [v2])]
  {
    var spec := [Entry("ubuntu", [v1])];
    var status := [Entry("ubuntu", [v1]), Entry("coreos", [v2])];
    assert spec[..0] == [] && status[..1] == [status[0]];
    var specImages := CreateMapFromSlice(spec);
    var statusImages := CreateMapFromSlice(status);
    assert specImages == map["ubuntu" := spec[0]];
    assert statusImages == map["ubuntu" := status[0], "coreos" := status[1]];
    assert "ubuntu"[0] != "coreos"[0];
    var r := MergeImageIndexes(specImages, statusImages, {"ubuntu"});
    assert r.Keys == {"ubuntu", "coreos"};
    assert r["ubuntu"] == Entry("ubuntu", [v1] + [v1]) && [v1] + [v1] == [v1, v1];
  }

  // ---------------------------------------------------------------------------
  // Properties of the type merge
  // ---------------------------------------------------------------------------

  /** A type named in the status keeps its status entry, whatever the spec says. */
  lemma StatusTypeWins<F>(spec: seq<MachineType<F>>, status: seq<MachineType<F>>, i: int)
    requires LastOfName(status, i)
    ensures MergedTypes(spec, status)[status[i].name] == status[i]
  {
    CreateMapFromSliceLastWins(status, i);
  }

  /** A type named only in the spec is inserted exactly as the spec has it. */
  lemma SpecOnlyTypeInserted<F>(spec: seq<MachineType<F>>, status: seq<MachineType<F>>, j: int)
    requires LastOfName(spec, j) && spec[j].name !in Names(status)
    ensures MergedTypes(spec, status)[spec[j].name] == spec[j]
  {
    CreateMapFromSliceLastWins(spec, j);
  }

  /** Merging an empty list into either side gives back the other side's index. */
  lemma TypesEmptySide<F>(spec: seq<MachineType<F>>, status: seq<MachineType<F>>)
    ensures MergedTypes([], status) == CreateMapFromSlice(status)
    ensures MergedTypes(spec, []) == CreateMapFromSlice(spec)
  {
  }

  /** Unlike the image merge, the type merge is idempotent: merging the same
      spec into its own result changes nothing. */
  lemma ReMergeTypesIsIdempotent<F>(spec: seq<MachineType<F>>, status: seq<MachineType<F>>, merged: seq<MachineType<F>>)
    requires Lists(merged, MergedTypes(spec, status))
    ensures MergedTypes(spec, merged) == MergedTypes(spec, status)
  {
    CreateMapFromSliceOfListing(merged, MergedTypes(spec, status));
  }

  // ---------------------------------------------------------------------------
  // The gate, on the lifecycle examples
  // ---------------------------------------------------------------------------

  /** A profile whose generation differs from its observed generation, in
      either direction, is skipped; a live, reconciled profile with both configs
      is merged. */
  lemma SkipGateExamples(config: seq<bv8>)
    ensures ShouldSkipMutation(NamespacedCloudProfile(None, 3, 2, Some(config), Some(config)))
    ensures ShouldSkipMutation(NamespacedCloudProfile(None, 2, 3, Some(config), Some(config)))
    ensures !ShouldSkipMutation(NamespacedCloudProfile(None, 2, 2, Some(config), Some(config)))
  {
  }
}

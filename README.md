# NamespacedCloudProfile provider-config merge (Azure provider extension)

A Dafny model of the admission mutator that Gardener's Azure provider extension
runs on `NamespacedCloudProfile` resources. Once the authoritative
reconciliation has produced a status for the profile's current generation, the
mutator merges the Azure `CloudProfileConfig` written in the profile's spec into
the one recorded in its status:

- **machine images** are united by name. An image named on both sides becomes
  a new entry whose versions are the status versions followed by the spec
  versions, with no deduplication.
- **machine types** are united by name. On a name found on both sides, the
  status entry wins unchanged.
- names found only in the status pass through untouched.
- the merge is skipped for a profile that is being deleted, whose generation
  differs from its observed generation, or that lacks either provider config.

Files:

- `v1alpha1.dfy` (module `V1alpha1`) holds the API values. A list entry is
  `Entry(name, payload)`. A machine image's payload is its version list. A
  machine type's payload is the opaque rest of the record. The decoded
  `CloudProfileConfig` is a class whose two list fields the mutator reassigns.
- `utils.dfy` (module `Utils`) holds the two helpers the merges are built from:
  - `CreateMapFromSlice` indexes a list by name. Its source is not part of this
    model, so it is written as a left fold where a later entry overwrites an
    earlier one of the same name. That last-write-wins behaviour is an
    assumption, not a verified fact about the helper.
  - `CollectValues` is `slices.Collect(maps.Values(m))`. Keys are picked with
    `:|`, so every order is allowed, as in Go.
- `mutator.dfy` (module `Mutator`) holds the merges, the skip gate and the
  merge/skip flow of `Mutate`:
  - `MergeMachineImages` and `MergeMachineTypes` are methods. Each indexes both
    lists, walks the spec index in an unspecified order while updating the
    status index in place, and lists the result.
  - Each method is proved against a reference definition on the name indexes
    (`MergedImages`, `MergedTypes`).
  - The lemmas state the merge properties entry by entry, in terms of the
    input lists.

The result of a merge is a list whose order is unspecified. Its contract is
`Lists(merged, M)`: every name appears exactly once, the names are exactly the
keys of `M`, and each entry equals `M` at its name.

## Model

| member | source | states |
|---|---|---|
| `Utils.CreateMapFromSlice` | pkg/admission/mutator/namespacedcloudprofile.go:102-103 | the index maps every key to an entry of that very name, taken from the list (last-write-wins fold; assumed semantics of the helper) |
| `Utils.CreateMapFromSliceKeys` | pkg/admission/mutator/namespacedcloudprofile.go:102-103 | the index has a key for every name in the list and no other key |
| `Utils.CreateMapFromSliceLastWins` | pkg/admission/mutator/namespacedcloudprofile.go:102-103 | for a name repeated in the list, the index keeps the last entry that carries it |
| `Utils.CreateMapFromSliceOfListing` | pkg/admission/mutator/namespacedcloudprofile.go:123 | re-indexing a merge result gives back the merged index (listing a name-keyed map and indexing it is a round trip) |
| `Utils.CollectValues` | pkg/admission/mutator/namespacedcloudprofile.go:123 | returns the map's values once per key, in some order (both at :123 for images and at :134 for types); for a name-keyed map, every name once and each entry equal to the map at its name |
| `Mutator.MergeImageIndexesStep` | pkg/admission/mutator/namespacedcloudprofile.go:104-121 | one loop iteration over a spec name changes the status index at that name only: spec entry if absent, else status versions ++ spec versions |
| `Mutator.MergedImages` | pkg/admission/mutator/namespacedcloudprofile.go:101-124 | the merged image index has exactly the names of the spec and status lists, each keyed by its own name |
| `Mutator.MergeMachineImages` | pkg/admission/mutator/namespacedcloudprofile.go:101-124 | the result lists every spec or status image name exactly once and no other name; each entry is the reference merge at its name |
| `Mutator.MergedTypes` | pkg/admission/mutator/namespacedcloudprofile.go:126-135 | the merged type index has exactly the names of the spec and status lists, each keyed by its own name |
| `Mutator.MergeMachineTypes` | pkg/admission/mutator/namespacedcloudprofile.go:126-135 | the result lists every spec or status type name exactly once and no other name; each entry is the reference merge at its name |
| `Mutator.ShouldSkipMutation` | pkg/admission/mutator/namespacedcloudprofile.go:64-70 | the merge may run exactly when there is no deletion timestamp, generation equals observed generation, and both provider configs are present |
| `Mutator.Mutate` | pkg/admission/mutator/namespacedcloudprofile.go:46-59 | when the gate says skip, the status config is unchanged; otherwise its images and types become the listings of the two merges of the spec config into the old status config |
| `Mutator.ImagesOnBothSidesConcatenate` | pkg/admission/mutator/namespacedcloudprofile.go:107-120 | an image named on both sides keeps its name and gets the last status entry's versions followed by the last spec entry's versions, nothing removed |
| `Mutator.SpecOnlyImageInserted` | pkg/admission/mutator/namespacedcloudprofile.go:105-106 | an image named only in the spec is inserted exactly as the spec's last entry of that name |
| `Mutator.StatusOnlyImageUnchanged` | pkg/admission/mutator/namespacedcloudprofile.go:104-106 | an image named only in the status is returned unchanged |
| `Mutator.ImagesEmptySide` | pkg/admission/mutator/namespacedcloudprofile.go:101-104 | with an empty spec list the merge is the status index; with an empty status list it is the spec index |
| `Mutator.ReMergeImagesAppendsAgain` | pkg/admission/mutator/namespacedcloudprofile.go:109-115 | merging the same spec into a merge result appends the spec versions again, so each spec image grows by the number of its spec versions (not idempotent) |
| `Mutator.ImagesScenario` | pkg/admission/mutator/namespacedcloudprofile.go:101-124 | spec `ubuntu[v1]` into status `ubuntu[v1], coreos[v2]` gives `ubuntu[v1, v1]` and `coreos[v2]` |
| `Mutator.StatusTypeWins` | pkg/admission/mutator/namespacedcloudprofile.go:129-133 | a type named in the status keeps its last status entry unchanged, whatever the spec holds |
| `Mutator.SpecOnlyTypeInserted` | pkg/admission/mutator/namespacedcloudprofile.go:130-131 | a type named only in the spec is inserted exactly as the spec's last entry of that name |
| `Mutator.TypesEmptySide` | pkg/admission/mutator/namespacedcloudprofile.go:126-129 | with an empty spec list the merge is the status index; with an empty status list it is the spec index |
| `Mutator.ReMergeTypesIsIdempotent` | pkg/admission/mutator/namespacedcloudprofile.go:129-133 | merging the same spec into a type merge result changes nothing |
| `Mutator.SkipGateExamples` | pkg/admission/mutator/namespacedcloudprofile.go:64-70 | generation 3 with observed generation 2, and generation 2 with observed generation 3, are skipped; a live profile at 2/2 with both configs is merged |

## Left out

- Decoding the raw provider configs (`decodeConfigs`, `decodeProviderConfig`) uses the Kubernetes strict decoder, which is not part of this model. `Mutate` takes the already-decoded configs as parameters, and decode errors are not modelled.
- `updateProfileStatus` re-encodes the merged config with `json.Marshal` and stores the bytes in the profile. This encoding, and its error, are not modelled. `Mutate` ends with the merged status config object.
- `helper.TransformProviderConfigToParentFormat` is not part of this model. `Mutate`'s `uniformSpecConfig` stands for its output, an arbitrary spec config.
- `NewNamespacedCloudProfileMutator`, the client, the manager and the webhook `Mutator` interface are controller wiring. The "wrong object type" error is a Go type assertion. Neither is modelled.
- `Utils.CreateMapFromSlice`: the last-write-wins behaviour on duplicate names is assumed, because the helper's code is not part of this model.
- Only the `MachineImages` and `MachineTypes` fields of `CloudProfileConfig` are modelled. The mutator does not touch the other fields.
- A machine image is modelled as a name plus versions. The merged entry the code builds has only those two fields.
- The order of merge results is not modelled. Go map iteration order is unspecified, so the contracts state the names and entries, never their order.
- Generation counters are `int64` in the source. They are only compared for equality, so the model uses unbounded `int`. The deletion timestamp is modelled only as present or absent.
- The empty-side property for images and types states that the result is the other side's name index. When the other list repeats a name, only its last entry survives, so the result is not the list itself.

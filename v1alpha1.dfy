/**
 The slice of the Azure provider's v1alpha1 API that the NamespacedCloudProfile
 mutator touches: named machine-image and machine-type entries, and the decoded
 provider configuration whose two lists the mutator rewrites in place.
 */
module V1alpha1 {

  /** A list entry identified by its name; `payload` is everything else it carries.
      For a machine image the payload is its list of versions, for a machine type
      it is the opaque rest of the record (CPU, memory, capabilities, ...). */
  datatype Entry<P> = Entry(name: string, payload: P)

  /** `MachineImages{Name, Versions}`; a version is never inspected, so it is a type parameter. */
  type MachineImage<V> = Entry<seq<V>>

  /** `MachineType{Name, ...}`; only the name is ever looked at. */
  type MachineType<F> = Entry<F>

  /** The decoded `CloudProfileConfig`. Only the two lists the mutator assigns are modelled. */
  class CloudProfileConfig<V, F> {
    var machineImages: seq<MachineImage<V>>
    var machineTypes: seq<MachineType<F>>
  }
}

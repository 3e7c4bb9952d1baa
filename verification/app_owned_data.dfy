/**
 * The closed set of entity kinds the registry stores (src/app/app_owned_data.rs):
 * one variant per combination of the update and input capabilities, each
 * holding the entity itself.
 */
module AppOwnedData {
  import opened Wrappers

  datatype AppOwnedData<E> =
    | Updateable(value: E)
    | InputListener(value: E)
    | UpdateableInputListener(value: E)

  /** `as_updateable`: the entity, for the two variants that can be ticked. */
  function AsUpdateable<E>(d: AppOwnedData<E>): (r: Option<E>)
    ensures r.Some? <==> d.Updateable? || d.UpdateableInputListener?
    ensures r.Some? ==> r.value == d.value
  {
    match d
    case Updateable(x) => Some(x)
    case UpdateableInputListener(x) => Some(x)
    case _ => None
  }

  /** `as_input_listener`: the entity, for the two variants that take input. */
  function AsInputListener<E>(d: AppOwnedData<E>): (r: Option<E>)
    ensures r.Some? <==> d.InputListener? || d.UpdateableInputListener?
    ensures r.Some? ==> r.value == d.value
  {
    match d
    case InputListener(x) => Some(x)
    case UpdateableInputListener(x) => Some(x)
    case _ => None
  }

  /** `from_updateable`: an entity that is ticked and ignores input. */
  function FromUpdateable<E>(x: E): (r: AppOwnedData<E>)
    ensures AsUpdateable(r) == Some(x) && AsInputListener(r) == None
  {
    Updateable(x)
  }

  /** `from_input_listener`: an entity that takes input and is never ticked. */
  function FromInputListener<E>(x: E): (r: AppOwnedData<E>)
    ensures AsUpdateable(r) == None && AsInputListener(r) == Some(x)
  {
    InputListener(x)
  }

  /** `from_updt_input`: an entity that is both ticked and given input. */
  function FromUpdtInput<E>(x: E): (r: AppOwnedData<E>)
    ensures AsUpdateable(r) == Some(x) && AsInputListener(r) == Some(x)
  {
    UpdateableInputListener(x)
  }

  /** No variant is without a capability. */
  lemma EveryVariantHasCapability<E>(d: AppOwnedData<E>)
    ensures AsUpdateable(d).Some? || AsInputListener(d).Some?
  {
  }

  /** Replacing the held entity keeps the variant, so the capability set never changes. */
  lemma CapabilitiesFixed<E>(d: AppOwnedData<E>, x: E)
    ensures AsUpdateable(d.(value := x)).Some? == AsUpdateable(d).Some?
    ensures AsInputListener(d.(value := x)).Some? == AsInputListener(d).Some?
  {
  }
}

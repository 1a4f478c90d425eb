/**
 * The home page's "Start Your Project" form (src/components/home/contact-form.tsx).
 * The store insert is commented out in this version: submitting waits, then
 * always reports success and clears the form.
 */
module ContactForm {
  /** The form's `formData`. */
  datatype ContactFields = ContactFields(
    name: string,
    email: string,
    phone: string,
    businessDescription: string,
    requirements: string)

  /** The inputs, by their `name` attribute. */
  datatype Field = Name | Email | Phone | BusinessDescription | Requirements

  datatype Status = Idle | Success | Error

  const EmptyFields: ContactFields := ContactFields("", "", "", "", "")

  function Get(f: ContactFields, k: Field): string {
    match k
    case Name => f.name
    case Email => f.email
    case Phone => f.phone
    case BusinessDescription => f.businessDescription
    case Requirements => f.requirements
  }

  /** `handleChange`: `[e.target.name]: e.target.value` over the previous data. */
  function With(f: ContactFields, k: Field, v: string): (r: ContactFields)
    ensures Get(r, k) == v
    ensures forall k' :: k' != k ==> Get(r, k') == Get(f, k')
  {
    match k
    case Name => f.(name := v)
    case Email => f.(email := v)
    case Phone => f.(phone := v)
    case BusinessDescription => f.(businessDescription := v)
    case Requirements => f.(requirements := v)
  }

  /** Every input is `required`: the browser submits only when none is empty. */
  predicate Submittable(f: ContactFields) {
    forall k :: Get(f, k) != ""
  }

  /** The cleared form reads empty in every input and cannot be resubmitted
      as it stands. */
  lemma ClearedFormEmpty()
    ensures forall k :: Get(EmptyFields, k) == ""
    ensures !Submittable(EmptyFields)
  {
    assert Get(EmptyFields, Name) == "";
  }

  /** Filling every input in turn makes the form submittable, whatever it held. */
  lemma FilledFormSubmittable(f: ContactFields, a: string, b: string, c: string, d: string, e: string)
    requires a != "" && b != "" && c != "" && d != "" && e != ""
    ensures Submittable(With(With(With(With(With(f, Name, a), Email, b), Phone, c), BusinessDescription, d), Requirements, e))
  {
    var g := With(With(With(With(With(f, Name, a), Email, b), Phone, c), BusinessDescription, d), Requirements, e);
    assert g == ContactFields(a, b, c, d, e);
  }

  class Form {
    var isLoading: bool
    var status: Status
    var fields: ContactFields

    constructor ()
      ensures !isLoading && status == Idle && fields == EmptyFields
    {
      isLoading := false;
      status := Idle;
      fields := EmptyFields;
    }

    method HandleChange(k: Field, v: string)
      modifies this`fields
      ensures fields == With(old(fields), k, v)
    {
      fields := With(fields, k, v);
    }

    /** The synchronous start of `handleSubmit`. The submit button is disabled
        while a submission is in flight. */
    method BeginSubmit()
      requires !isLoading && Submittable(fields)
      modifies this`isLoading, this`status
      ensures isLoading && status == Idle
    {
      isLoading := true;
      status := Idle;
    }

    /** The end of `handleSubmit`, once the delay has elapsed: nothing in the
        try block can fail, so the outcome is always success with the form
        cleared. */
    method FinishSubmit()
      requires isLoading
      modifies this
      ensures !isLoading && status == Success && fields == EmptyFields
    {
      status := Success;
      fields := EmptyFields;
      isLoading := false;
    }

    /** A whole submission. */
    method HandleSubmit()
      requires !isLoading && Submittable(fields)
      modifies this
      ensures !isLoading && status == Success && fields == EmptyFields
    {
      BeginSubmit();
      FinishSubmit();
    }
  }
}

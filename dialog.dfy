/**
 * The dialog generator: an object with three injected values (resource,
 * request, scripting helper), a field-discovery function, and two lazily
 * filled slots, the field registry and the generated form.
 */
module Dialog {
  import opened Forms
  import opened ClientLibraries

  class GeneratedDialog {
    /** The resource the dialog is adapted from; defaulted from the request by Init. */
    var resource: Option<Resource>
    const request: Option<Request>
    /** The scripting helper; absent when the dialog is used outside a live request. */
    const sling: Option<ScriptHelper>
    /** The most-derived class of this dialog, which field discovery inspects. */
    const dialogClass: string
    /** Field discovery: from a dialog class and the helper to the class's form fields. */
    const discover: (string, Option<ScriptHelper>) -> Registry

    var form: Option<FormComponent>
    var fieldComponents: Option<Registry>
    /** How often field discovery has run on this object. */
    ghost var discoveries: nat

    /**
     * Discovery has run exactly when the registry slot is filled, and then
     * once; a filled form slot holds the form generated from the registry.
     */
    ghost predicate Valid()
      reads this
    {
      && (fieldComponents.None? ==> discoveries == 0)
      && (fieldComponents.Some? ==> discoveries == 1 && fieldComponents.value == discover(dialogClass, sling))
      && (form.Some? ==> fieldComponents.Some? && IsGeneratedForm(form.value, sling, fieldComponents.value))
    }

    /** Injection: the optional values as given, both slots still empty. */
    constructor (resource: Option<Resource>, request: Option<Request>, sling: Option<ScriptHelper>,
                 dialogClass: string, discover: (string, Option<ScriptHelper>) -> Registry)
      ensures Valid()
      ensures this.resource == resource && this.request == request && this.sling == sling
      ensures this.dialogClass == dialogClass && this.discover == discover
      ensures form.None? && fieldComponents.None? && discoveries == 0
    {
      this.resource := resource;
      this.request := request;
      this.sling := sling;
      this.dialogClass := dialogClass;
      this.discover := discover;
      form := None;
      fieldComponents := None;
      discoveries := 0;
    }

    /**
     * Post-construction: a missing resource is taken from the request when
     * there is one; then the field registry is discovered (at most once).
     */
    method Init()
      requires Valid()
      modifies this`resource, this`fieldComponents, this`discoveries
      ensures Valid()
      ensures resource == if old(resource).None? && request.Some? then Some(request.value.resource)
                          else old(resource)
      ensures fieldComponents == Some(discover(dialogClass, sling))
      ensures old(fieldComponents).Some? ==> fieldComponents == old(fieldComponents) && discoveries == old(discoveries)
    {
      if resource.None? && request.Some? {
        resource := Some(request.value.resource);
      }
      var _ := GetFieldComponents();
    }

    /**
     * The field registry, discovered on first use and remembered: once the
     * slot is filled, later calls return the same registry and do not run
     * discovery again.
     */
    method GetFieldComponents() returns (fields: Registry)
      requires Valid()
      modifies this`fieldComponents, this`discoveries
      ensures Valid()
      ensures fieldComponents == Some(fields)
      ensures fields == discover(dialogClass, sling)
      ensures old(fieldComponents).Some? ==> fields == old(fieldComponents).value && discoveries == old(discoveries)
      ensures old(fieldComponents).None? ==> discoveries == old(discoveries) + 1
    {
      if fieldComponents.None? {
        fieldComponents := Some(discover(dialogClass, sling));
        discoveries := discoveries + 1;
      }
      fields := fieldComponents.value;
    }

    /**
     * The client libraries of category `t` over all fields, each once, in
     * order of first occurrence. Reads the registry slot directly, so the
     * registry must already be discovered (Init sees to that).
     */
    method GetClientLibraries(t: ClientLibraryType) returns (libraries: seq<string>)
      requires fieldComponents.Some?
      ensures libraries == Aggregate(fieldComponents.value, t)
      ensures NoDuplicates(libraries)
      ensures forall x :: x in libraries <==> x in Found(fieldComponents.value, t)
      ensures FirstOccurrenceOrder(libraries, Found(fieldComponents.value, t))
    {
      var fields := fieldComponents.value;
      libraries := [];
      var i := 0;
      while i < |fields|
        invariant 0 <= i <= |fields|
        invariant libraries == Aggregate(fields[..i], t)
      {
        var categories := fields[i].1.clientLibraryCategories;
        if t in categories {
          libraries := InsertAll(libraries, categories[t]);
        }
        assert fields[..i + 1][..i] == fields[..i];
        i := i + 1;
      }
      assert fields[..i] == fields;
      AggregateCharacterized(fields, t, libraries);
    }

    method GetAllClientLibraries() returns (libraries: seq<string>)
      requires fieldComponents.Some?
      ensures libraries == Aggregate(fieldComponents.value, All)
    {
      libraries := GetClientLibraries(All);
    }

    method GetCssClientLibraries() returns (libraries: seq<string>)
      requires fieldComponents.Some?
      ensures libraries == Aggregate(fieldComponents.value, Css)
    {
      libraries := GetClientLibraries(Css);
    }

    method GetJsClientLibraries() returns (libraries: seq<string>)
      requires fieldComponents.Some?
      ensures libraries == Aggregate(fieldComponents.value, Js)
    {
      libraries := GetClientLibraries(Js);
    }

    /**
     * The generated form, built on first use and remembered. With a helper
     * it renders asynchronously at the helper's request path and carries the
     * granite:id marker; without one it sits at the default path. It holds
     * the registry's fields, by name, in registry order.
     */
    method GetForm() returns (f: FormComponent)
      requires Valid()
      modifies this`form, this`fieldComponents, this`discoveries
      ensures Valid()
      ensures form == Some(f)
      ensures fieldComponents.Some? && IsGeneratedForm(f, sling, fieldComponents.value)
      ensures old(form).Some? ==> f == old(form).value
      ensures old(fieldComponents).Some? ==> fieldComponents == old(fieldComponents) && discoveries == old(discoveries)
    {
      if form.None? {
        var built := NewForm;
        if sling.Some? {
          built := built.(helper := sling);
          built := built.(path := sling.value.request.resource.path);
          built := built.(async := true);
          built := built.(componentMetadata := built.componentMetadata[GraniteIdKey := GeneratedFormId]);
        } else {
          built := built.(path := DefaultPath);
        }
        ghost var configured := built;
        var fields := GetFieldComponents();
        var i := 0;
        while i < |fields|
          invariant 0 <= i <= |fields|
          invariant built == configured.(components := fields[..i])
        {
          built := built.(components := built.components + [fields[i]]);
          i := i + 1;
        }
        assert fields[..i] == fields;
        form := Some(built);
      }
      f := form.value;
    }
  }

  /**
   * Reading either slot twice gives the same value both times, and field
   * discovery runs at most once however often the slots are read.
   */
  method RepeatedReadsAgree(d: GeneratedDialog)
    returns (fields1: Registry, fields2: Registry, form1: FormComponent, form2: FormComponent)
    requires d.Valid()
    modifies d
    ensures fields1 == fields2 && form1 == form2
    ensures form1.components == fields1
    ensures d.discoveries == 1
  {
    fields1 := d.GetFieldComponents();
    form1 := d.GetForm();
    fields2 := d.GetFieldComponents();
    form2 := d.GetForm();
  }
}

# GeneratedDialog, modelled in Dafny

`GeneratedDialog` (ACS AEM Commons, `com.adobe.acs.commons.mcp.form`) is the base class of Sling
models that turn `@FormField`-annotated fields into a dialog. It holds three injected values
(the resource, the request and the scripting helper) and two lazily filled slots: the field
registry (`fieldComponents`, field name to `FieldComponent`) and the generated form
(`FormComponent`). It also aggregates the client libraries that the fields declare, per
category (ALL, CSS, JS), into an insertion-ordered, duplicate-free collection.

The model has three modules:

- `Forms` (`forms.dfy`) holds the values. `FieldComponent` is reduced to its map from
  `ClientLibraryType` to a list of library identifiers. The registry `Map<String, FieldComponent>`
  is a `Registry`: a sequence of (name, component) entries in the map's iteration order,
  with distinct names. `Resource`, `Request` and `ScriptHelper` are reduced to the resource
  path they lead to. `FormComponent` is a record: helper, path, async flag, metadata map and
  the entries added to it. `IsGeneratedForm` says what a finished generated form looks like.
- `ClientLibraries` (`client_libraries.dfy`) is the specification of the aggregation.
  `Insert` and `InsertAll` are `LinkedHashSet.add` and `addAll`, and `Aggregate` folds the
  registry through them. `Found` is the independent reference: every identifier found for
  the category, repeats included. The lemmas prove that `Aggregate` is exactly the sequence
  that lists the members of `Found` once each, in order of first occurrence. This is proved
  in both directions, so those three properties determine the result.
- `Dialog` (`dialog.dfy`) is the class `GeneratedDialog`. Its slots are `Option` fields,
  and a ghost counter records how often field discovery has run. `Valid()` ties the slots to
  that counter and to the discovery function, and ties a filled form slot to
  `IsGeneratedForm`. `GetClientLibraries` is the `forEach` loop over the registry.
  `GetForm` sets the form up and then adds the fields one by one in a loop.

Field discovery (`AnnotatedFieldDeserializer.getFormFields`) is not part of this model. It
appears as a function value `discover` given to the constructor.
It is applied to the dialog's class name and the optional helper, as the source applies it
to `getClass()` and `getSlingHelper()`. Sling injection becomes the constructor's parameters,
and `@PostConstruct` becomes the explicit `Init` method.

`getClientLibraries` reads the `fieldComponents` field directly instead of calling
`getFieldComponents()`, so on an object whose registry was never discovered it would fail with
a null dereference. `Init` always discovers the registry first. The model therefore requires
`fieldComponents.Some?` of the aggregation methods. This is the state every object has after
`Init`.

## Model

| member | source | states |
|---|---|---|
| `Dialog.GeneratedDialog.constructor` | bundle/src/main/java/com/adobe/acs/commons/mcp/form/GeneratedDialog.java:45-56 | the injected resource, request and helper are kept as given; both lazy slots start empty and discovery has not run |
| `Dialog.GeneratedDialog.Init` | bundle/src/main/java/com/adobe/acs/commons/mcp/form/GeneratedDialog.java:58-64 | the resource is replaced by the request's resource exactly when it is missing and a request is present, otherwise unchanged; afterwards the registry slot holds the discovered registry; an already filled slot is not rediscovered |
| `Dialog.GeneratedDialog.GetFieldComponents` | bundle/src/main/java/com/adobe/acs/commons/mcp/form/GeneratedDialog.java:66-71 | memoised: discovery runs only when the slot is empty, and it runs at most once per object (`Valid`); a filled slot is returned unchanged, without running discovery again |
| `Dialog.GeneratedDialog.GetClientLibraries` | bundle/src/main/java/com/adobe/acs/commons/mcp/form/GeneratedDialog.java:85-92 | the loop over the registry yields the aggregation of the category: no duplicates; it holds exactly the identifiers some field declares for the category; they appear in first-occurrence order (registry order, then list order) |
| `Dialog.GeneratedDialog.GetAllClientLibraries` | bundle/src/main/java/com/adobe/acs/commons/mcp/form/GeneratedDialog.java:73-75 | equals the aggregation of category ALL |
| `Dialog.GeneratedDialog.GetCssClientLibraries` | bundle/src/main/java/com/adobe/acs/commons/mcp/form/GeneratedDialog.java:77-79 | equals the aggregation of category CSS |
| `Dialog.GeneratedDialog.GetJsClientLibraries` | bundle/src/main/java/com/adobe/acs/commons/mcp/form/GeneratedDialog.java:81-83 | equals the aggregation of category JS |
| `Dialog.GeneratedDialog.GetForm` | bundle/src/main/java/com/adobe/acs/commons/mcp/form/GeneratedDialog.java:119-133 | memoised; with a helper the form carries it, has the helper's request resource path, is asynchronous and has metadata granite:id = mcp-generated-form; without a helper its path is "/form" and its flag and metadata keep a fresh form's defaults; either way it holds exactly the registry's entries in registry order; a filled registry slot is not rediscovered |
| `Dialog.RepeatedReadsAgree` | bundle/src/main/java/com/adobe/acs/commons/mcp/form/GeneratedDialog.java:119-133 | reading the registry and the form twice returns equal values both times, the form holds the registry, and discovery has run exactly once |
| `ClientLibraries.InsertAllAppend` | bundle/src/main/java/com/adobe/acs/commons/mcp/form/GeneratedDialog.java:90 | adding one list and then another to an insertion-ordered set equals adding their concatenation |
| `ClientLibraries.AggregateIsInsertAllFound` | bundle/src/main/java/com/adobe/acs/commons/mcp/form/GeneratedDialog.java:86-90 | folding the registry field by field equals adding every found identifier, in order, to an empty set |
| `ClientLibraries.InsertAllFromEmpty` | bundle/src/main/java/com/adobe/acs/commons/mcp/form/GeneratedDialog.java:86 | a LinkedHashSet filled from a list holds each of its identifiers once, nothing else, in first-occurrence order |
| `ClientLibraries.FirstOccurrenceOrderUnique` | bundle/src/main/java/com/adobe/acs/commons/mcp/form/GeneratedDialog.java:86-91 | two duplicate-free sequences with the same members, both in first-occurrence order of the same list, are equal |
| `ClientLibraries.AggregateCharacterized` | bundle/src/main/java/com/adobe/acs/commons/mcp/form/GeneratedDialog.java:85-92 | a sequence is the aggregation of a category if and only if it is duplicate-free, has exactly the found identifiers and lists them in first-occurrence order |
| `ClientLibraries.FoundMembers` | bundle/src/main/java/com/adobe/acs/commons/mcp/form/GeneratedDialog.java:87-90 | an identifier is found for a category if and only if some field's map has an entry for the category whose list holds it |
| `ClientLibraries.AggregateMembers` | bundle/src/main/java/com/adobe/acs/commons/mcp/form/GeneratedDialog.java:87-90 | an identifier is in the aggregation if and only if some field declares it under the category |
| `ClientLibraries.FieldWithoutCategoryIsSkipped` | bundle/src/main/java/com/adobe/acs/commons/mcp/form/GeneratedDialog.java:88-89 | a field with no entry for the category is filtered out and leaves the aggregation unchanged |
| `ClientLibraries.NoCategoryYieldsEmpty` | bundle/src/main/java/com/adobe/acs/commons/mcp/form/GeneratedDialog.java:85-92 | an empty registry, or one where no field has the category, yields an empty collection |
| `ClientLibraries.CategoryContainment` | bundle/src/main/java/com/adobe/acs/commons/mcp/form/GeneratedDialog.java:73-83 | categories are independent lookups: if each field's list for one category is contained in its list for another (such as ALL), the first aggregation is contained in the second |

## Left out

- `getFormResource` (`buildComponentResource`): rendering the form into a resource tree happens in `FormComponent`, which is not part of this model.
- Field discovery (`AnnotatedFieldDeserializer.getFormFields`) is not part of this model: it is an uninterpreted function parameter, and so are its reflection on the class and its use of the helper. A failure inside discovery propagates out of `init` in the source, and the Sling model is then not created. The model treats discovery as total.
- `getResource`, `getRequest`, `getSlingHelper`: plain field reads; the model reads the fields directly.
- The internals of `FormComponent`, `FieldComponent`, `Resource`, `SlingHttpServletRequest` and `SlingScriptHelper` are not part of this model. A fresh `FormComponent` is taken to have an empty path, `async` false, empty metadata, no helper and no components (`NewForm`). `addComponent` is modelled as appending the (name, component) entry.
- The order of steps in `getForm`: the source stores the new form in its slot before it discovers the fields. The model stores the finished form. The two differ only when discovery fails, and that case is left out above.
- Null values that only the unseen classes could produce, such as a helper without a request, are not modelled: the helper always leads to a resource path.
- Object identity: the source's memoised getters return the same Java object each time, while the model returns equal values.
- Thread-safety of the lazy slots: the object is confined to one request, and the model is sequential.

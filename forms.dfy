/**
 * The values a generated dialog works with: field descriptors and their
 * client-library categories, the field registry, the request-side context
 * and the form container that the dialog fills in.
 */
module Forms {

  /** A value that may be missing; stands for a Java reference that may be null. */
  datatype Option<+T> = None | Some(value: T)

  /** FieldComponent.ClientLibraryType: the category a client library is declared under. */
  datatype ClientLibraryType = All | Css | Js

  /**
   * A form field descriptor, reduced to what the dialog reads from it:
   * for each category it declares, the list of client-library identifiers.
   * A category without an entry is absent from the map (the Java lookup yields null).
   */
  datatype FieldComponent = FieldComponent(clientLibraryCategories: map<ClientLibraryType, seq<string>>)

  /** A field name together with its descriptor, as one entry of the field registry. */
  type Entry = (string, FieldComponent)

  /** No two entries carry the same field name. */
  predicate DistinctNames(entries: seq<Entry>)
  {
    forall i, j :: 0 <= i < j < |entries| ==> entries[i].0 != entries[j].0
  }

  /**
   * The field registry: the Map<String, FieldComponent> produced by field
   * discovery, written as its entries in the map's iteration order. Keys of
   * a map are unique, hence the distinct names.
   */
  type Registry = entries: seq<Entry> | DistinctNames(entries) witness []

  /** A repository resource, reduced to its path. */
  datatype Resource = Resource(path: string)

  /** The current request, reduced to the resource it addresses. */
  datatype Request = Request(resource: Resource)

  /** The scripting helper, reduced to the request it belongs to. */
  datatype ScriptHelper = ScriptHelper(request: Request)

  /**
   * The form container: the helper it renders with, its target path, whether
   * it submits asynchronously, its free-form metadata, and the fields added
   * to it, by name, in the order they were added.
   */
  datatype FormComponent = FormComponent(
    helper: Option<ScriptHelper>,
    path: string,
    async: bool,
    componentMetadata: map<string, string>,
    components: seq<Entry>)

  /** A freshly constructed FormComponent: nothing set and nothing added yet. */
  const NewForm: FormComponent := FormComponent(None, "", false, map[], [])

  /** The path a form gets when no scripting helper is present. */
  const DefaultPath: string := "/form"

  /** The metadata key and value that mark a form as generated. */
  const GraniteIdKey: string := "granite:id"
  const GeneratedFormId: string := "mcp-generated-form"

  /**
   * What a generated form looks like once built from helper `sling` and
   * registry `fields`: with a helper it carries the helper, the path of the
   * helper's request resource, the asynchronous flag and the granite:id
   * marker; without one it has the default path and otherwise keeps the
   * defaults of a fresh form. Either way it holds exactly the registry's
   * entries, in registry order.
   */
  predicate IsGeneratedForm(f: FormComponent, sling: Option<ScriptHelper>, fields: Registry)
  {
    && f.helper == sling
    && (sling.Some? ==>
          && f.path == sling.value.request.resource.path
          && f.async
          && f.componentMetadata == NewForm.componentMetadata[GraniteIdKey := GeneratedFormId])
    && (sling.None? ==>
          && f.path == DefaultPath
          && f.async == NewForm.async
          && f.componentMetadata == NewForm.componentMetadata)
    && f.components == fields
  }
}

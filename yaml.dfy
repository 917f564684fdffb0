/** Decoded YAML values and the fields of a project file, as the YAML
    library hands them to the dependency manager. The YAML text form is not
    modelled: parsing a file yields these values or an error. */
module Yaml {
  import opened Outcomes

  /** A decoded YAML node, as `yaml.v3` delivers it into an `interface{}`. */
  datatype Value =
    | Null
    | Bool(b: bool)
    | Str(s: string)
    | Int(i: int)
    | List(items: seq<Value>)
    | Mapping(entries: map<string, Value>)

  /** The `build` section of a project file. */
  datatype BuildSection = BuildSection(output: string, target: string, entrypoints: seq<string>)

  /** The fields of an `opa.project` file. `dependencies` is the raw node
      under the `dependencies` key, absent when the key is missing. */
  datatype ProjectFile = ProjectFile(
    name: string,
    version: string,
    source: string,
    sourceDirs: seq<string>,
    testDirs: seq<string>,
    dependencies: Option<Value>,
    build: BuildSection)
}

/** The app-registry directory as both Python programs read it: a listing of
    file names, each with what `yaml.safe_load` made of its contents. */
module AppRecords {
  import opened Base
  import opened Text

  /** A loaded document: a mapping with the two keys the programs read, some
      other YAML value (a list, a scalar, or nothing for an empty file), or
      text that does not parse. */
  datatype Doc = Mapping(name: Option<string>, composeFile: Option<string>) | NotMapping | Unparseable

  /** One name from `os.listdir`, with the document that file holds. */
  datatype DirEntry = DirEntry(fileName: string, doc: Doc)

  /** `file.endswith(".yaml")`: `.yml` files are not read. */
  predicate IsYaml(e: DirEntry) {
    EndsWith(e.fileName, ".yaml")
  }

  /** A `compose_file` value Python treats as true: present and non-empty. */
  predicate HasCompose(d: Doc) {
    d.Mapping? && d.composeFile.Some? && d.composeFile.value != []
  }
}

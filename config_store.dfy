/** The persisted manifest document of src/config.rs, abstracted from its TOML
    form: what was last saved, and how many times a command saved it. */
module ConfigStore {
  import opened Catalog

  class ManifestFile {
    var document: Templates
    var saves: nat

    constructor (initial: Templates)
      ensures document == initial && saves == 0
    {
      document := initial;
      saves := 0;
    }

    /** `load_manifest`: an absent or empty document loads as `Manifest::new()`. */
    method Load() returns (m: Manifest)
      ensures fresh(m) && m.templates == document
    {
      if document == map[] {
        m := new Manifest();
      } else {
        m := new Manifest.FromDocument(document);
      }
    }

    /** `save_manifest`: the whole document is replaced. */
    method Save(m: Manifest)
      modifies this
      ensures document == m.templates && saves == old(saves) + 1
    {
      document := m.templates;
      saves := saves + 1;
    }
  }
}

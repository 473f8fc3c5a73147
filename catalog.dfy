/** The manifest (src/manifest.rs): the catalogue's map from template name to
    its entry, updated in place by the commands that load it. */
module Catalog {
  import opened Basics
  import opened Paths

  /** Unix seconds, as the manifest document stores them. */
  type Timestamp = int

  datatype TemplateEntry = TemplateEntry(
    filenameInStorage: string,
    sourceExtension: string,
    createdAt: Timestamp,
    updatedAt: Timestamp,
    description: Option<string>,
    originalSourcePath: Option<Path>,
    tags: seq<string>,
    language: Option<string>)

  type Templates = map<string, TemplateEntry>

  /** Where the manifest says an entry's file is: `templates_dir.join(filename_in_storage)`. */
  function StoragePath(templatesDir: Path, entry: TemplateEntry): Path
  {
    Join(templatesDir, entry.filenameInStorage)
  }

  /** `TemplateEntry::new` called at time `now`. */
  function NewEntry(filenameInStorage: string, sourceExtension: string, now: Timestamp): (e: TemplateEntry)
    ensures e.filenameInStorage == filenameInStorage && e.sourceExtension == sourceExtension
    ensures e.createdAt == now && e.updatedAt == now
    ensures e.description.None? && e.originalSourcePath.None? && e.language.None? && e.tags == []
  {
    TemplateEntry(filenameInStorage, sourceExtension, now, now, None, None, [], None)
  }

  /** Two entries agree on everything but their timestamps. */
  predicate SameButTimestamps(a: TemplateEntry, b: TemplateEntry)
  {
    && a.filenameInStorage == b.filenameInStorage
    && a.sourceExtension == b.sourceExtension
    && a.description == b.description
    && a.originalSourcePath == b.originalSourcePath
    && a.tags == b.tags
    && a.language == b.language
  }

  /** The templates after `add_template(name, entry)` at time `now`: a new name
      gets `entry` as it is; an existing name gets `entry` with its original
      creation time kept and `now` as its update time. */
  function Inserted(templates: Templates, name: string, entry: TemplateEntry, now: Timestamp): (r: Templates)
    ensures r.Keys == templates.Keys + {name}
    ensures forall other | other in templates && other != name :: r[other] == templates[other]
    ensures name !in templates ==> r[name] == entry
    ensures name in templates ==>
              r[name].createdAt == templates[name].createdAt && r[name].updatedAt == now &&
              SameButTimestamps(r[name], entry)
  {
    if name in templates then
      templates[name := entry.(createdAt := templates[name].createdAt, updatedAt := now)]
    else
      templates[name := entry]
  }

  /** Removing a name undoes adding it: whatever was stored under the name
      before, the other entries are exactly what they were. */
  lemma RemoveUndoesInsert(templates: Templates, name: string, entry: TemplateEntry, now: Timestamp)
    ensures Inserted(templates, name, entry, now) - {name} == templates - {name}
    ensures name !in templates ==> Inserted(templates, name, entry, now) - {name} == templates
  {
  }

  /** Re-adding a name keeps the creation time of its first addition, however
      many times it is re-added. */
  lemma {:induction false} CreationTimeSurvivesReAdds(templates: Templates, name: string,
                                                      entries: seq<TemplateEntry>, nows: seq<Timestamp>)
    requires name in templates
    requires |entries| == |nows|
    ensures name in ReAdded(templates, name, entries, nows)
    ensures ReAdded(templates, name, entries, nows)[name].createdAt == templates[name].createdAt
    decreases |entries|
  {
    if entries != [] {
      var next := Inserted(templates, name, entries[0], nows[0]);
      CreationTimeSurvivesReAdds(next, name, entries[1..], nows[1..]);
    }
  }

  /** `add_template(name, entries[i])` at times `nows[i]`, one after the other. */
  function ReAdded(templates: Templates, name: string, entries: seq<TemplateEntry>, nows: seq<Timestamp>): Templates
    requires |entries| == |nows|
    decreases |entries|
  {
    if entries == [] then templates
    else ReAdded(Inserted(templates, name, entries[0], nows[0]), name, entries[1..], nows[1..])
  }

  class Manifest {
    var templates: Templates

    /** `Manifest::new`: no entries. */
    constructor ()
      ensures templates == map[]
    {
      templates := map[];
    }

    /** A manifest holding the entries a loaded document describes. */
    constructor FromDocument(document: Templates)
      ensures templates == document
    {
      templates := document;
    }

    /** `add_template`; `now` is the value `Utc::now()` returns. */
    method AddTemplate(name: string, entry: TemplateEntry, now: Timestamp)
      modifies this
      ensures templates == Inserted(old(templates), name, entry, now)
    {
      var stored := entry;
      if name in templates {
        stored := stored.(createdAt := templates[name].createdAt);
        stored := stored.(updatedAt := now);
      }
      templates := templates[name := stored];
    }

    /** `remove_template`: the prior entry if there was one; afterwards the name
        is absent and every other entry is unchanged. */
    method RemoveTemplate(name: string) returns (removed: Option<TemplateEntry>)
      modifies this
      ensures removed == if name in old(templates) then Some(old(templates)[name]) else None
      ensures templates == old(templates) - {name}
    {
      removed := if name in templates then Some(templates[name]) else None;
      templates := templates - {name};
    }

    /** `get_template`. */
    function GetTemplate(name: string): (r: Option<TemplateEntry>)
      reads this
      ensures r.Some? <==> name in templates
      ensures r.Some? ==> r.value == templates[name]
    {
      if name in templates then Some(templates[name]) else None
    }

    /** `get_template_mut` followed by the caller's `change` to the entry it
        lends: only that name's entry changes, and only when it exists. */
    method UpdateTemplate(name: string, change: TemplateEntry -> TemplateEntry) returns (found: bool)
      modifies this
      ensures found == (name in old(templates))
      ensures templates == if found then old(templates)[name := change(old(templates)[name])] else old(templates)
    {
      found := name in templates;
      if found {
        templates := templates[name := change(templates[name])];
      }
    }
  }
}

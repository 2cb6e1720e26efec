/**
 * The filesystem-watcher events the application receives, as the `notify`
 * crate describes them. Only the shape matters to the application: an event
 * has a kind, the paths it concerns and some attributes. The crate's nested
 * sub-kinds (data change, metadata kind, rename mode, access mode) are
 * flattened to one constructor each, since nothing in the application looks
 * inside them.
 */
module Notify {
  import opened Wrappers

  type Path = seq<char>

  datatype AccessKind = AccessAny | AccessRead | AccessOpen | AccessClose | AccessOther

  datatype CreateKind = CreateAny | CreateFile | CreateFolder | CreateOther

  datatype ModifyKind = ModifyAny | ModifyData | ModifyMetadata | ModifyName | ModifyOther

  datatype RemoveKind = RemoveAny | RemoveFile | RemoveFolder | RemoveOther

  /** `notify::EventKind`. */
  datatype EventKind =
    | Any
    | Access(accessKind: AccessKind)
    | Create(createKind: CreateKind)
    | Modify(modifyKind: ModifyKind)
    | Remove(removeKind: RemoveKind)
    | Other

  /** `notify::event::EventAttributes`: tracker, rescan flag, info and source. */
  datatype EventAttributes = EventAttributes(
    tracker: Option<nat>,
    rescan: bool,
    info: Option<string>,
    source: Option<string>)

  /** `notify::Event`. */
  datatype Event = Event(kind: EventKind, paths: seq<Path>, attrs: EventAttributes)
}

/** The rows that the filters look at. Columns declared NOT NULL are plain values. */
module Tables {
  import opened Wrappers
  import opened Json

  type Uuid = nat
  type Time = int

  datatype FileRow = FileRow(id: Uuid, hash: string, size: nat, contentType: string)

  datatype RefRow = RefRow(
    id: Uuid, fileId: Uuid, projectId: Uuid, originalName: string, metadata: Json, createdAt: Time)

  datatype LocationRow = LocationRow(
    id: Uuid, fileId: Uuid, storageId: Uuid, path: string, synced: bool, lastAccessed: Option<Time>)

  /** owner is the project of a storage that is not shared. */
  datatype Storage = Storage(id: Uuid, isHot: bool, enabled: bool, owner: Option<Uuid>)
}

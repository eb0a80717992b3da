/** Value types shared by every component: bytes, names and file attributes. */
module Types {

  type byte = x: int | 0 <= x < 256

  /** A file name, or any other byte string that came off a path or the wire. */
  type Name = seq<byte>

  datatype Option<+T> = None | Some(value: T)

  datatype NodeKind = File | Directory | Symlink | Other

  datatype Attributes = Attributes(size: nat, mtimeNs: int, mode: nat, kind: NodeKind)

  /** How a path is matched against the tree: by spelling, or failing that up to case. */
  datatype LookupMode = Exact | CaseInsensitive

  /** What a directory gets when only something below it has been reported. */
  const IMPLICIT_DIRECTORY := Attributes(0, 0, 0x1ED, Directory)
}

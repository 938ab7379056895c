/** The permission-bit logic of `os`: reading one rwx triple, choosing the
    caller's triple of a file, `os.access`'s decision, and the Windows
    file-attribute to mode conversion. Mode words are `u32` and follow the
    POSIX.1 `<sys/stat.h>` layout. */
module OsPermissions {
  import opened Objects
  import opened OsErrors

  // <sys/stat.h> bits (octal 0400, 0200, 0100, 040, 020, 010, 04, 02, 01)
  const S_IRUSR: bv32 := 0x100
  const S_IWUSR: bv32 := 0x80
  const S_IXUSR: bv32 := 0x40
  const S_IRGRP: bv32 := 0x20
  const S_IWGRP: bv32 := 0x10
  const S_IXGRP: bv32 := 0x8
  const S_IROTH: bv32 := 0x4
  const S_IWOTH: bv32 := 0x2
  const S_IXOTH: bv32 := 0x1
  // octal 04000, 02000, 01000: set-user-ID, set-group-ID, sticky
  const S_ISUGV: bv32 := 0xE00
  // octal 0170000, 0040000, 0100000
  const S_IFMT: bv32 := 0xF000
  const S_IFDIR: bv32 := 0x4000
  const S_IFREG: bv32 := 0x8000

  /** `os.access` mode bits. */
  const F_OK: bv8 := 0
  const R_OK: bv8 := 4
  const W_OK: bv8 := 2
  const X_OK: bv8 := 1

  const ACCESS_FLAGS_MSG := "One of the flags is wrong, there are only 4 possibilities F_OK, R_OK, W_OK and X_OK"

  datatype Permissions = Permissions(isReadable: bool, isWritable: bool, isExecutable: bool)

  /** `get_permissions`: the low three bits of `mode` as read, write and
      execute. */
  function GetPermissions(mode: bv32): (p: Permissions)
    ensures p.isReadable <==> mode & 4 != 0
    ensures p.isWritable <==> mode & 2 != 0
    ensures p.isExecutable <==> mode & 1 != 0
  {
    Permissions(mode & 4 != 0, mode & 2 != 0, mode & 1 != 0)
  }

  /** The rwx triple that stands for `p`. */
  function PermissionBits(p: Permissions): bv32 {
    (if p.isReadable then 4 else 0) | (if p.isWritable then 2 else 0) | (if p.isExecutable then 1 else 0)
  }

  /** A triple and its permissions determine each other. */
  lemma PermissionsRoundTrip(mode: bv32, p: Permissions)
    ensures PermissionBits(GetPermissions(mode)) == mode & 7
    ensures GetPermissions(PermissionBits(p)) == p
  {
  }

  /** `get_right_permission`: the caller's group list is read first, and
      failing to read it fails the call whoever owns the file. Then the owner
      triple applies when the caller owns the file, else the group triple
      when the file's group is one of the caller's, else the others triple. */
  function GetRightPermission(mode: bv32, fileOwner: bv32, fileGroup: bv32,
                              uid: bv32, groups: NixResult<seq<bv32>>): (r: NixResult<Permissions>)
    ensures groups.NixErr? ==> r == NixErr(groups.err)
    ensures groups.NixOk? && fileOwner == uid ==>
      r == NixOk(Permissions(mode & S_IRUSR != 0, mode & S_IWUSR != 0, mode & S_IXUSR != 0))
    ensures groups.NixOk? && fileOwner != uid && fileGroup in groups.value ==>
      r == NixOk(Permissions(mode & S_IRGRP != 0, mode & S_IWGRP != 0, mode & S_IXGRP != 0))
    ensures groups.NixOk? && fileOwner != uid && fileGroup !in groups.value ==>
      r == NixOk(Permissions(mode & S_IROTH != 0, mode & S_IWOTH != 0, mode & S_IXOTH != 0))
  {
    var ownerPermissions := GetPermissions((mode & 0x1C0) >> 6);
    var groupPermissions := GetPermissions((mode & 0x38) >> 3);
    var othersPermissions := GetPermissions(mode & 7);
    match groups
    case NixErr(e) => NixErr(e)
    case NixOk(ids) =>
      if fileOwner == uid then NixOk(ownerPermissions)
      else if fileGroup in ids then NixOk(groupPermissions)
      else NixOk(othersPermissions)
  }

  /** What `fs::metadata` reports that `access` uses. */
  datatype Metadata = Metadata(uid: bv32, gid: bv32, mode: bv32)

  /** The triple of `mode` that applies to the caller, as rwx bits. */
  function CallerTriple(m: Metadata, uid: bv32, groups: seq<bv32>): bv32 {
    if m.uid == uid then (m.mode >> 6) & 7
    else if m.gid in groups then (m.mode >> 3) & 7
    else m.mode & 7
  }

  /** `access`: a mode with a bit outside R_OK, W_OK and X_OK is a
      ValueError; F_OK alone asks only whether the metadata could be read;
      otherwise a metadata or group-list failure is raised, and the answer
      is whether every requested bit is set in the caller's triple. */
  function Access(mode: bv8, metadata: IoResult<Metadata>, uid: bv32, groups: NixResult<seq<bv32>>): (r: Result<bool>)
    ensures mode & 0xF8 != 0 ==> r == Raise(ValueError, ACCESS_FLAGS_MSG)
    ensures mode == F_OK ==> r == Ok(metadata.IoOk?)
    ensures mode & 0xF8 == 0 && mode != F_OK && metadata.IoErr? ==> r == Err(IoErrorToException(metadata.err))
    ensures mode & 0xF8 == 0 && mode != F_OK && metadata.IoOk? && groups.NixErr? ==>
      r == Err(NixErrorToException(groups.err))
    ensures mode & 0xF8 == 0 && mode != F_OK && metadata.IoOk? && groups.NixOk? ==>
      r == Ok((mode as bv32) & CallerTriple(metadata.value, uid, groups.value) == mode as bv32)
  {
    if mode & 0xF8 != 0 then Raise(ValueError, ACCESS_FLAGS_MSG)
    else if mode == F_OK then Ok(metadata.IoOk?)
    else match metadata
      case IoErr(e) => Err(IoErrorToException(e))
      case IoOk(md) =>
        match GetRightPermission(md.mode, md.uid, md.gid, uid, groups)
        case NixErr(e) => Err(NixErrorToException(e))
        case NixOk(perm) =>
          var rOk := mode & R_OK == 0 || perm.isReadable;
          var wOk := mode & W_OK == 0 || perm.isWritable;
          var xOk := mode & X_OK == 0 || perm.isExecutable;
          Ok(rOk && wOk && xOk)
  }

  // Windows file attributes
  const FILE_ATTRIBUTE_READONLY: bv32 := 1
  const FILE_ATTRIBUTE_DIRECTORY: bv32 := 16

  /** The shape of `attributes_to_mode`, taking the three permission masks
      as parameters: a directory gets S_IFDIR and `dirExec`, anything else
      S_IFREG; a read-only file gets `readOnly`, anything else `writable`. */
  function ModeFrom(attr: bv32, dirExec: bv32, readOnly: bv32, writable: bv32): bv32 {
    (if attr & FILE_ATTRIBUTE_DIRECTORY == FILE_ATTRIBUTE_DIRECTORY then S_IFDIR | dirExec else S_IFREG)
    | (if attr & FILE_ATTRIBUTE_READONLY == FILE_ATTRIBUTE_READONLY then readOnly else writable)
  }

  /** `attributes_to_mode` as written: its masks are the decimal numbers
      111, 444 and 666 (octal 0157, 0674 and 01232). The file type comes out
      right, but a read-only file is writable by its owner, and a writable
      one has the sticky bit and is not readable by its owner. */
  method AttributesToMode(attr: bv32) returns (m: bv32)
    ensures m == ModeFrom(attr, 111, 444, 666)
    ensures m & S_IFMT == if attr & FILE_ATTRIBUTE_DIRECTORY != 0 then S_IFDIR else S_IFREG
    ensures attr & FILE_ATTRIBUTE_READONLY != 0 ==> m & S_IWUSR != 0
    ensures attr & FILE_ATTRIBUTE_READONLY == 0 ==> m & S_ISUGV != 0 && m & S_IRUSR == 0
  {
    m := 0;
    if attr & FILE_ATTRIBUTE_DIRECTORY == FILE_ATTRIBUTE_DIRECTORY {
      m := m | S_IFDIR | 111;
    } else {
      m := m | S_IFREG;
    }
    if attr & FILE_ATTRIBUTE_READONLY == FILE_ATTRIBUTE_READONLY {
      m := m | 444;
    } else {
      m := m | 666;
    }
  }

  /** With the decimal masks a read-only regular file comes out writable by
      its owner, and a writable one gets the sticky bit and loses its read
      bits. */
  lemma DecimalMasksMisstateAccess()
    ensures var m := ModeFrom(FILE_ATTRIBUTE_READONLY, 111, 444, 666);
      m & S_IFMT == S_IFREG && m & S_IWUSR != 0
    ensures var m := ModeFrom(0, 111, 444, 666);
      m & S_IFMT == S_IFREG && m & S_ISUGV != 0 && m & S_IRUSR == 0
  {
  }

  /** `attributes_to_mode` with the octal masks 0111, 0444 and 0666 of the C
      code it was taken from. */
  method AttributesToModeIntended(attr: bv32) returns (m: bv32)
    ensures m == ModeFrom(attr, 0x49, 0x124, 0x1B6)
    ensures m & S_IFMT == if attr & FILE_ATTRIBUTE_DIRECTORY != 0 then S_IFDIR else S_IFREG
    ensures m & S_ISUGV == 0
    ensures GetPermissions(m >> 6) == GetPermissions(m >> 3) == GetPermissions(m)
    ensures GetPermissions(m) ==
      Permissions(true, attr & FILE_ATTRIBUTE_READONLY == 0, attr & FILE_ATTRIBUTE_DIRECTORY != 0)
  {
    m := 0;
    if attr & FILE_ATTRIBUTE_DIRECTORY == FILE_ATTRIBUTE_DIRECTORY {
      m := m | S_IFDIR | 0x49;
    } else {
      m := m | S_IFREG;
    }
    if attr & FILE_ATTRIBUTE_READONLY == FILE_ATTRIBUTE_READONLY {
      m := m | 0x124;
    } else {
      m := m | 0x1B6;
    }
  }
}

/** `os.scandir`'s iterator with its sticky end flag, and the
    `supports_fd`, `supports_dir_fd` and `supports_follow_symlinks` sets
    `make_module` builds. */
module OsModule {
  import opened Objects
  import opened OsErrors

  /** What one read of the directory listing gives: an entry's file name or
      the error reading it raised. */
  datatype DirRead = Entry(name: seq<bv8>) | ReadError(err: IoError)

  /** A `DirEntry` object: the listing entry and the iterator's mode. */
  datatype DirEntry = DirEntry(name: seq<bv8>, mode: nat)

  const STOP: Exc := Exception(StopIteration, PyNone)

  /** `ScandirIterator`: the reads the listing has still to give, and
      whether the iterator is finished. */
  class ScandirIterator {
    var listing: seq<DirRead>
    var exhausted: bool
    const mode: nat

    constructor (listing: seq<DirRead>, mode: nat)
      ensures this.listing == listing && !exhausted && this.mode == mode
    {
      this.listing := listing;
      exhausted := false;
      this.mode := mode;
    }

    /** `__next__`: once exhausted, StopIteration without touching the
        listing; otherwise the next read becomes a `DirEntry` or its error is
        raised, and an empty listing marks the iterator exhausted. */
    method Next() returns (r: Result<DirEntry>)
      modifies this
      ensures old(exhausted) ==> r == Err(STOP) && exhausted && listing == old(listing)
      ensures !old(exhausted) && old(listing) == [] ==> r == Err(STOP) && exhausted && listing == []
      ensures !old(exhausted) && old(listing) != [] ==>
        !exhausted && listing == old(listing)[1..]
        && r == match old(listing)[0]
                { case Entry(n) => Ok(DirEntry(n, mode)) case ReadError(e) => Err(IoErrorToException(e)) }
    {
      if exhausted {
        return Err(STOP);
      }
      if listing == [] {
        exhausted := true;
        return Err(STOP);
      }
      var read := listing[0];
      listing := listing[1..];
      match read {
        case Entry(n) => r := Ok(DirEntry(n, mode));
        case ReadError(e) => r := Err(IoErrorToException(e));
      }
    }

    /** `close`: exhausted from now on; the listing is not read. */
    method Close()
      modifies this
      ensures exhausted && listing == old(listing)
    {
      exhausted := true;
    }

    /** `__exit__`: the same as `close`. */
    method Exit()
      modifies this
      ensures exhausted && listing == old(listing)
    {
      Close();
    }
  }

  /** One `SupportFunc`: a function's name and whether it accepts a file
      descriptor, a `dir_fd` and `follow_symlinks` (None: not stated). */
  datatype SupportFunc = SupportFunc(name: string, fd: Option<bool>, dirFd: Option<bool>, followSymlinks: Option<bool>)

  /** The supports sets of `make_module`: a function is in a set exactly when
      some entry for it states the ability as true; an unstated ability
      counts as false. Every listed name becomes a module attribute. */
  method SupportSets(funcs: seq<SupportFunc>)
    returns (supportsFd: set<string>, supportsDirFd: set<string>, supportsFollowSymlinks: set<string>, attrs: set<string>)
    ensures forall n :: n in supportsFd <==> exists j | 0 <= j < |funcs| :: funcs[j].name == n && funcs[j].fd == Some(true)
    ensures forall n :: n in supportsDirFd <==> exists j | 0 <= j < |funcs| :: funcs[j].name == n && funcs[j].dirFd == Some(true)
    ensures forall n :: n in supportsFollowSymlinks <==>
      exists j | 0 <= j < |funcs| :: funcs[j].name == n && funcs[j].followSymlinks == Some(true)
    ensures forall n :: n in attrs <==> exists j | 0 <= j < |funcs| :: funcs[j].name == n
  {
    supportsFd, supportsDirFd, supportsFollowSymlinks, attrs := {}, {}, {}, {};
    for i := 0 to |funcs|
      invariant forall n :: n in supportsFd <==> exists j | 0 <= j < i :: funcs[j].name == n && funcs[j].fd == Some(true)
      invariant forall n :: n in supportsDirFd <==> exists j | 0 <= j < i :: funcs[j].name == n && funcs[j].dirFd == Some(true)
      invariant forall n :: n in supportsFollowSymlinks <==>
        exists j | 0 <= j < i :: funcs[j].name == n && funcs[j].followSymlinks == Some(true)
      invariant forall n :: n in attrs <==> exists j | 0 <= j < i :: funcs[j].name == n
    {
      var support := funcs[i];
      if support.fd.GetOr(false) {
        supportsFd := supportsFd + {support.name};
      }
      if support.dirFd.GetOr(false) {
        supportsDirFd := supportsDirFd + {support.name};
      }
      if support.followSymlinks.GetOr(false) {
        supportsFollowSymlinks := supportsFollowSymlinks + {support.name};
      }
      attrs := attrs + {support.name};
    }
  }
}

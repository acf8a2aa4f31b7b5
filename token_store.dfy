/**
 * The token file `~/.vault-token` and the write of it by
 * `ioutil.WriteFile(path, token, 0600)` (main.go, `authenticateVault`).
 * The filesystem is abstract: what the home-directory lookup, the open and the
 * write return is given as a `PersistOutcome`.
 */
module TokenStore {
  import opened Wrappers

  /** The nine permission bits of a file mode (owner, group, other; read, write, execute). */
  type Perm = bv9

  /** The mode the source asks for, 0600: owner read and write. */
  const RequestedPerm: Perm := 0x180
  /** The group and other bits, 0077. */
  const GroupOtherBits: Perm := 0x3F

  /** The token file: absent, or present with contents and mode. */
  datatype TokenFile = Absent | Present(data: string, mode: Perm)

  /** What the filesystem does with one attempt to persist the token. */
  datatype PersistOutcome =
    | HomeUnresolved          // homedir.Expand("~/.vault-token") fails
    | OpenFails               // the file cannot be opened or created
    | WriteFails(written: nat) // only `written` characters reach the file, or closing fails
    | Written                 // the whole token is written and the file closed

  datatype PersistError = HomeDirError | OpenError | WriteError

  /**
   * The mode a newly created file gets: the requested mode with the process
   * umask cleared out, as `open(2)` does: exactly the bits of 0600 the umask
   * does not mask. It never has group or other bits.
   */
  function CreateMode(umask: Perm): (m: Perm)
    ensures m & GroupOtherBits == 0
    ensures m & umask == 0
    ensures m & !RequestedPerm == 0
    ensures m | (RequestedPerm & umask) == RequestedPerm
  {
    RequestedPerm & !umask
  }

  /** The first `n` characters of `s`, or all of it. */
  function Take(s: string, n: nat): (p: string)
    ensures p <= s && |p| <= n
    ensures n >= |s| ==> p == s
  {
    if n >= |s| then s else s[..n]
  }

  /**
   * `ioutil.WriteFile` behind `homedir.Expand`: the file is opened with
   * create and truncate; the mode argument only takes effect when the file is
   * created, an existing file keeps its mode.
   */
  function Persist(f: TokenFile, token: string, umask: Perm, o: PersistOutcome): (r: (TokenFile, Option<PersistError>))
    ensures r.1 == None <==> o == Written
    ensures o == Written ==> r.0.Present? && r.0.data == token
    ensures o.HomeUnresolved? || o.OpenFails? ==> r.0 == f
    ensures o.WriteFails? ==> r.0.Present? && r.0.data <= token && |r.0.data| <= o.written
    ensures r.0 != f ==> r.0.Present? && r.0.mode == (if f.Present? then f.mode else CreateMode(umask))
  {
    match o
    case HomeUnresolved => (f, Some(HomeDirError))
    case OpenFails => (f, Some(OpenError))
    case WriteFails(n) =>
      var mode := if f.Present? then f.mode else CreateMode(umask);
      (Present(Take(token, n), mode), Some(WriteError))
    case Written =>
      var mode := if f.Present? then f.mode else CreateMode(umask);
      (Present(token, mode), None)
  }

  /** A token file the agent creates is readable and writable by its owner only, whatever the umask. */
  lemma CreatedFileIsPrivate(token: string, umask: Perm, o: PersistOutcome)
    requires Persist(Absent, token, umask, o).0.Present?
    ensures Persist(Absent, token, umask, o).0.mode & GroupOtherBits == 0
  {
  }

  /**
   * Persisting over a token file that already exists keeps the file and its
   * mode, whatever the outcome and the umask: the requested 0600 is applied
   * only on creation.
   */
  lemma ExistingModeKept(f: TokenFile, token: string, umask: Perm, o: PersistOutcome)
    requires f.Present?
    ensures Persist(f, token, umask, o).0.Present? && Persist(f, token, umask, o).0.mode == f.mode
  {
  }

  /**
   * A token file left at 0644 (0x1A4, which has group and other read bits)
   * receives the new token and stays 0644, so it stays world-readable.
   */
  lemma WorldReadableFileStays(previous: string, token: string, umask: Perm)
    ensures Persist(Present(previous, 0x1A4), token, umask, Written) == (Present(token, 0x1A4), None)
  {
  }
}

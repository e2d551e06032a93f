/** The configuration object of the daemon and the package-level store that
    publishes it together with the signing key derived from its token. */
module Config {
  import opened Base
  import opened UuidPattern
  import opened Accounts

  // ---------------------------------------------------------------------
  // Configuration values

  datatype SslConfiguration = SslConfiguration(Enabled: bool, CertificateFile: string, KeyFile: string)

  datatype ApiConfiguration = ApiConfiguration(Host: string, Port: int, Ssl: SslConfiguration, UploadLimit: int)

  datatype ThrottlesConfiguration = ThrottlesConfiguration(
    KillAtCount: int, DecaySeconds: int, BytesPerInterval: int, CheckInterval: int)

  /** The numeric ids of the system user. */
  datatype SystemUser = SystemUser(Uid: int, Gid: int)

  /** The fields of the system section that this package reads or writes. */
  datatype SystemConfiguration = SystemConfiguration(
    Data: string, Username: string, User: SystemUser, SetPermissionsOnBoot: bool)

  /** A shallow copy of every field of a Configuration (`ccopy := *c`);
      this is also the value the YAML encoder serialises. */
  datatype Snapshot = Snapshot(
    path: string,
    Debug: bool,
    Uuid: string,
    AuthenticationTokenId: string,
    AuthenticationToken: string,
    Api: ApiConfiguration,
    System: SystemConfiguration,
    DiskCheckTimeout: int,
    Throttles: ThrottlesConfiguration,
    PanelLocation: string)

  /** The value WriteToDisk serialises: the copy, with Debug cleared when
      debug mode was switched on by the command-line flag. */
  function PersistedCopy(c: Snapshot, debugViaFlag: bool): (r: Snapshot)
    ensures r.Debug == (c.Debug && !debugViaFlag)
    ensures debugViaFlag ==> !r.Debug
    ensures r.(Debug := c.Debug) == c
  {
    if debugViaFlag then c.(Debug := false) else c
  }

  /** A directory entry as ioutil.ReadDir lists it. */
  datatype FileInfo = FileInfo(Name: string, IsDir: bool)

  /** A call os.Chown(path.Join(dir, name), uid, gid). */
  datatype Chown = Chown(dir: string, name: string, uid: int, gid: int)

  /** The test each listed entry goes through: a directory whose name the
      UUID pattern matches. */
  predicate IsServerDirectory(f: FileInfo) {
    f.IsDir && MatchString(UuidV4Pattern, f.Name)
  }

  /** The test selects exactly the directories named like a version-4 UUID. */
  lemma ServerDirectoryTest(f: FileInfo)
    ensures IsServerDirectory(f) <==> f.IsDir && IsUuidV4Name(f.Name)
  {
    UuidV4PatternAcceptsExactly(f.Name);
  }

  /** The entries EnsureFilePermissions changes the owner of, in listing order. */
  function ServerDirectories(files: seq<FileInfo>): (r: seq<FileInfo>)
    ensures |r| <= |files|
    ensures forall f :: f in r <==> f in files && f.IsDir && IsUuidV4Name(f.Name)
    decreases |files|
  {
    if files == [] then []
    else
      var init := files[..|files| - 1];
      var last := files[|files| - 1];
      assert files == init + [last];
      ServerDirectoryTest(last);
      ServerDirectories(init) + (if IsServerDirectory(last) then [last] else [])
  }

  /** The names EnsureFilePermissions selects. */
  function SelectedNames(files: seq<FileInfo>): set<string> {
    set f | f in files && f.IsDir && IsUuidV4Name(f.Name) :: f.Name
  }

  // ---------------------------------------------------------------------
  // The configuration object

  class Configuration {
    var path: string
    var Debug: bool
    var Uuid: string
    var AuthenticationTokenId: string
    var AuthenticationToken: string
    var Api: ApiConfiguration
    var System: SystemConfiguration
    var DiskCheckTimeout: int
    var Throttles: ThrottlesConfiguration
    var PanelLocation: string

    /** A configuration with the given field values, as ReadConfiguration
        returns it once the file is parsed. */
    constructor (s: Snapshot)
      ensures Copy() == s
    {
      path, Debug, Uuid := s.path, s.Debug, s.Uuid;
      AuthenticationTokenId, AuthenticationToken := s.AuthenticationTokenId, s.AuthenticationToken;
      Api, System, DiskCheckTimeout := s.Api, s.System, s.DiskCheckTimeout;
      Throttles, PanelLocation := s.Throttles, s.PanelLocation;
    }

    function Copy(): Snapshot
      reads this
    {
      Snapshot(path, Debug, Uuid, AuthenticationTokenId, AuthenticationToken,
               Api, System, DiskCheckTimeout, Throttles, PanelLocation)
    }

    /** Serialises the configuration and writes it to its path. `marshal` and
        `write` are the outcomes of the YAML encoder and of the file write.
        `serialised` is the value handed to the encoder, if any. */
    method WriteToDisk(debugViaFlag: bool, marshal: Outcome, write: Outcome)
      returns (err: Outcome, serialised: Option<Snapshot>)
      ensures path == "" ==> err == Fail(NoPathDefined) && serialised == None
      ensures path != "" ==> serialised == Some(PersistedCopy(Copy(), debugViaFlag))
      ensures path != "" ==> err == (if marshal.Fail? then marshal else write)
      ensures serialised.Some? ==>
        && serialised.value.Debug == (Debug && !debugViaFlag)
        && serialised.value.(Debug := Debug) == Copy()
    {
      var copy := Copy();
      if debugViaFlag {
        copy := copy.(Debug := false);
      }
      if path == "" {
        return Fail(NoPathDefined), None;
      }
      serialised := Some(copy);
      if marshal.Fail? {
        return marshal, serialised;
      }
      err := write;
    }

    /** Records the user's name and ids in the system section and persists
        the configuration. */
    method SetSystemUser(u: User, debugViaFlag: bool, marshal: Outcome, write: Outcome)
      returns (err: Outcome, serialised: Option<Snapshot>)
      modifies this
      ensures Copy() == old(Copy()).(System := old(System).(Username := u.Username, User := SystemUser(u.Uid, u.Gid)))
      ensures path == "" ==> err == Fail(NoPathDefined) && serialised == None
      ensures path != "" ==> serialised == Some(PersistedCopy(Copy(), debugViaFlag))
      ensures path != "" ==> err == (if marshal.Fail? then marshal else write)
    {
      System := System.(Username := u.Username, User := SystemUser(u.Uid, u.Gid));
      err, serialised := WriteToDisk(debugViaFlag, marshal, write);
    }

    /** Makes sure the system user exists, creating it when the lookup says
        it is unknown, and records it in the configuration. The arguments
        are the outcomes of the operating-system calls, as for `Provision`.
        On success the user is returned, together with the outcome of
        persisting the configuration. */
    method EnsurePterodactylUser(lookup: Result<User>, release: Result<string>,
                                 exec: Command -> Outcome, relookup: Result<User>,
                                 debugViaFlag: bool, marshal: Outcome, write: Outcome)
      returns (user: Option<User>, err: Outcome, executed: seq<Command>, serialised: Option<Snapshot>)
      modifies this
      ensures executed == Provision(old(System.Username), lookup, release, exec, relookup).executed
      ensures var r := Provision(old(System.Username), lookup, release, exec, relookup).result;
        && (r.Err? ==> user == None && err == Fail(r.error) && serialised == None && Copy() == old(Copy()))
        && (r.Ok? ==>
             && user == Some(r.value)
             && Copy() == old(Copy()).(System := old(System).(
                  Username := r.value.Username, User := SystemUser(r.value.Uid, r.value.Gid)))
             && err == (if path == "" then Fail(NoPathDefined) else if marshal.Fail? then marshal else write)
             // what is written is the configuration with the user recorded
             && serialised == (if path == "" then None else Some(PersistedCopy(Copy(), debugViaFlag))))
    {
      var p := Provision(System.Username, lookup, release, exec, relookup);
      executed := p.executed;
      if p.result.Err? {
        return None, Fail(p.result.error), executed, None;
      }
      user := Some(p.result.value);
      err, serialised := SetSystemUser(p.result.value, debugViaFlag, marshal, write);
    }

    /** Gives the system user every server data directory under the data
        directory. `listing` is the outcome of listing the data directory,
        `lookup` that of looking up the system user, `chown` that of each
        ownership change. Returns the changes requested and those that
        failed (which are only logged). */
    method EnsureFilePermissions(listing: Result<seq<FileInfo>>, lookup: Result<User>,
                                 chown: Chown -> Outcome)
      returns (err: Outcome, chowned: seq<Chown>, failed: seq<Chown>)
      // the feature flag is checked first
      ensures !System.SetPermissionsOnBoot ==> err == Pass && chowned == []
      // only the listing or the lookup can fail the call
      ensures err.Fail? <==> System.SetPermissionsOnBoot && (listing.Err? || lookup.Err?)
      ensures System.SetPermissionsOnBoot && listing.Err? ==> err == Fail(listing.error)
      ensures System.SetPermissionsOnBoot && listing.Ok? && lookup.Err? ==> err == Fail(lookup.error)
      ensures err.Fail? ==> chowned == []
      // otherwise each selected directory, and nothing else, gets the looked-up ids
      ensures System.SetPermissionsOnBoot && listing.Ok? && lookup.Ok? ==>
        && |chowned| == |ServerDirectories(listing.value)|
        && (forall k | 0 <= k < |chowned| ::
              chowned[k] == Chown(System.Data, ServerDirectories(listing.value)[k].Name,
                                  lookup.value.Uid, lookup.value.Gid))
        && (set c | c in chowned :: c.name) == SelectedNames(listing.value)
      ensures forall c :: c in failed <==> c in chowned && chown(c).Fail?
    {
      chowned, failed := [], [];
      if !System.SetPermissionsOnBoot {
        return Pass, chowned, failed;
      }
      if listing.Err? {
        return Fail(listing.error), chowned, failed;
      }
      if lookup.Err? {
        return Fail(lookup.error), chowned, failed;
      }
      var files, su := listing.value, lookup.value;
      chowned, failed := ChownServerDirectories(System.Data, files, su, chown);
      ChownAllNames(System.Data, files, su);
      err := Pass;
    }
  }

  /** The loop over the listing: each server directory gets one ownership
      change to the user's ids, in listing order; the changes that fail are
      collected. */
  method ChownServerDirectories(dir: string, files: seq<FileInfo>, su: User, chown: Chown -> Outcome)
    returns (chowned: seq<Chown>, failed: seq<Chown>)
    ensures chowned == ChownAll(dir, ServerDirectories(files), su)
    ensures forall c :: c in failed <==> c in chowned && chown(c).Fail?
  {
    chowned, failed := [], [];
    for i := 0 to |files|
      invariant chowned == ChownAll(dir, ServerDirectories(files[..i]), su)
      invariant forall c :: c in failed <==> c in chowned && chown(c).Fail?
    {
      var f := files[i];
      SelectionStep(dir, files, i, su);
      if IsServerDirectory(f) {
        var request := Chown(dir, f.Name, su.Uid, su.Gid);
        chowned := chowned + [request];
        if chown(request).Fail? {
          failed := failed + [request];
        }
      }
    }
    assert files[..|files|] == files;
  }

  /** The ownership changes for the given entries, in order. */
  function ChownAll(dir: string, entries: seq<FileInfo>, u: User): (r: seq<Chown>)
    ensures |r| == |entries|
    ensures forall k | 0 <= k < |r| :: r[k] == Chown(dir, entries[k].Name, u.Uid, u.Gid)
    decreases |entries|
  {
    if entries == [] then []
    else ChownAll(dir, entries[..|entries| - 1], u) + [Chown(dir, entries[|entries| - 1].Name, u.Uid, u.Gid)]
  }

  /** One more entry of the listing extends the requested changes by at most that entry. */
  lemma SelectionStep(dir: string, files: seq<FileInfo>, i: nat, u: User)
    requires i < |files|
    ensures ChownAll(dir, ServerDirectories(files[..i + 1]), u) ==
      ChownAll(dir, ServerDirectories(files[..i]), u) +
      (if IsServerDirectory(files[i]) then [Chown(dir, files[i].Name, u.Uid, u.Gid)] else [])
  {
    var prefix := files[..i + 1];
    assert prefix[..i] == files[..i];
    var sel := ServerDirectories(files[..i]);
    if IsServerDirectory(files[i]) {
      assert (sel + [files[i]])[..|sel|] == sel;
    }
  }

  /** A data directory holding a server directory, a file and a directory
      with another name: only the server directory is selected. */
  lemma ServerDirectoriesExample(server: string)
    requires IsUuidV4Name(server)
    ensures ServerDirectories([
      FileInfo(server, true),
      FileInfo("notadirectory.txt", false),
      FileInfo("plain-folder", true)]) == [FileInfo(server, true)]
  {
  }

  lemma ChownAllNames(dir: string, files: seq<FileInfo>, u: User)
    ensures (set c | c in ChownAll(dir, ServerDirectories(files), u) :: c.name) == SelectedNames(files)
  {
    var sel := ServerDirectories(files);
    var cs := ChownAll(dir, sel, u);
    forall n | n in SelectedNames(files) ensures n in (set c | c in cs :: c.name) {
      var f :| f in files && f.IsDir && IsUuidV4Name(f.Name) && f.Name == n;
      var k :| 0 <= k < |sel| && sel[k] == f;
      assert cs[k].name == n;
    }
    forall c | c in cs ensures c.name in SelectedNames(files) {
      var k :| 0 <= k < |cs| && cs[k] == c;
      assert sel[k] in sel;
    }
  }

  // ---------------------------------------------------------------------
  // The package-level store

  /** The package state `_config`, `_jwtAlgo` and `_debugViaFlag`. The key
      is built from a token by `derive` (jwt.NewHS256 in the daemon).
      `derivations` counts how many times a key was built. */
  class Store<K> {
    const derive: string -> K
    var config: Configuration?
    var jwtAlgo: Option<K>
    var debugViaFlag: bool
    ghost var derivations: nat

    /** A key is present exactly when a configuration is, and it is the key
        of that configuration's token. */
    ghost predicate Valid()
      reads this, config
    {
      && (config == null <==> jwtAlgo == None)
      && (config != null ==> jwtAlgo == Some(derive(config.AuthenticationToken)))
    }

    constructor (derive: string -> K)
      ensures Valid()
      ensures this.derive == derive && config == null && jwtAlgo == None
      ensures !debugViaFlag && derivations == 0
    {
      this.derive := derive;
      config, jwtAlgo, debugViaFlag := null, None, false;
      derivations := 0;
    }

    /** Publishes `c`; the key is rebuilt only when there was no
        configuration or the token differs from the previous one. */
    method Set(c: Configuration)
      modifies this
      ensures old(Valid()) ==> Valid()
      ensures config == c && debugViaFlag == old(debugViaFlag)
      // the previous key is kept when the published token equals the new one,
      // even if that token was changed in place after the key was built
      ensures var rebuilt := old(config) == null || old(config.AuthenticationToken) != c.AuthenticationToken;
        && derivations == old(derivations) + (if rebuilt then 1 else 0)
        && jwtAlgo == (if rebuilt then Some(derive(c.AuthenticationToken)) else old(jwtAlgo))
    {
      if config == null || config.AuthenticationToken != c.AuthenticationToken {
        jwtAlgo := Some(derive(c.AuthenticationToken));
        derivations := derivations + 1;
      }
      config := c;
    }

    method SetDebugViaFlag(d: bool)
      modifies this
      ensures debugViaFlag == d
      ensures config == old(config) && jwtAlgo == old(jwtAlgo) && derivations == old(derivations)
    {
      debugViaFlag := d;
    }

    /** Persists `c` as `WriteToDisk` does, with the debug override this
        store holds: under the override the file never records debug mode. */
    method WriteToDisk(c: Configuration, marshal: Outcome, write: Outcome)
      returns (err: Outcome, serialised: Option<Snapshot>)
      ensures c.path == "" ==> err == Fail(NoPathDefined) && serialised == None
      ensures c.path != "" ==> serialised == Some(PersistedCopy(c.Copy(), debugViaFlag))
      ensures c.path != "" ==> err == (if marshal.Fail? then marshal else write)
      ensures debugViaFlag && serialised.Some? ==> !serialised.value.Debug
      ensures !debugViaFlag && serialised.Some? ==> serialised.value == c.Copy()
    {
      err, serialised := c.WriteToDisk(debugViaFlag, marshal, write);
    }

    /** The published configuration; whenever there is one, the key is that
        of its token. */
    function Get(): (c: Configuration?)
      reads this, config
      requires Valid()
      ensures c == null <==> GetJwtAlgorithm() == None
      ensures c != null ==> GetJwtAlgorithm() == Some(derive(c.AuthenticationToken))
    {
      config
    }

    /** The key of the published configuration, absent before the first Set. */
    function GetJwtAlgorithm(): (k: Option<K>)
      reads this, config
      requires Valid()
      ensures k.Some? ==> config != null && k.value == derive(config.AuthenticationToken)
    {
      jwtAlgo
    }
  }

  /** Publishing two configurations with the same token builds the key at
      most once, and the key is the one of that token. */
  method SetTwiceWithSameToken<K>(store: Store<K>, a: Configuration, b: Configuration)
    requires store.Valid()
    requires a.AuthenticationToken == b.AuthenticationToken
    modifies store
    ensures store.Valid() && store.config == b
    ensures store.derivations <= old(store.derivations) + 1
    ensures store.jwtAlgo == Some(store.derive(a.AuthenticationToken))
  {
    store.Set(a);
    ghost var key := store.jwtAlgo;
    store.Set(b);
    assert store.jwtAlgo == key;
  }

  /** Changing the published configuration's token in place and publishing
      it again keeps the key of the old token: `Set` compares the token with
      the one the published object now holds, which is the same. */
  method SetAfterInPlaceTokenChange<K>(store: Store<K>, c: Configuration, token: string)
    requires store.Valid()
    modifies store, c
    ensures store.config == c && c.AuthenticationToken == token
    ensures store.jwtAlgo == Some(store.derive(old(c.AuthenticationToken)))
  {
    store.Set(c);
    c.AuthenticationToken := token;
    store.Set(c);
  }
}

/**
  The two registry maps both coordinators keep (lock name -> open file, open
  file -> session), seen as values, and what registering, unregistering and
  disconnecting do to them. The backing file of a name is the directory
  string, the name and an extension: ".lck" in api/core/process.go, none in
  cli/distrilock/process.go.
 */
module Books {
  import opened Protocol
  import opened Posix

  function BackingPath(directory: string, name: string, ext: string): string {
    directory + name + ext
  }

  /** Within one directory and extension, distinct names have distinct backing files. */
  lemma BackingPathInjective(directory: string, ext: string, a: string, b: string)
    requires BackingPath(directory, a, ext) == BackingPath(directory, b, ext)
    ensures a == b
  {
    var pa, pb := BackingPath(directory, a, ext), BackingPath(directory, b, ext);
    assert pa[|directory|..|directory| + |a|] == a;
    assert pb[|directory|..|directory| + |b|] == b;
  }

  // ---------------------------------------------------------------------------
  // The two maps, seen as values

  /** Name -> owning session, through the file both maps share. */
  ghost function OwnersOf(k: map<string, File>, r: map<File, Session>): map<string, Session> {
    map n | n in k && k[n] in r :: r[k[n]]
  }

  /** An ownership map once `client` has gone: what it owned is dropped, the rest keep their owner. */
  function Disown<K>(owners: map<K, Session>, client: Session): map<K, Session> {
    map x | x in owners && owners[x] != client :: owners[x]
  }

  /** The part of an ownership map that belongs to `client`. */
  function Owned<K>(owners: map<K, Session>, client: Session): map<K, Session> {
    map x | x in owners && owners[x] == client :: owners[x]
  }

  /** The name index once the files in `dropped` are closed: the names backed by them are dropped. */
  function Forget(k: map<string, File>, dropped: seq<File>): map<string, File> {
    map n | n in k && k[n] !in dropped :: k[n]
  }

  /** The backing files of the names a map has as keys. */
  function PathsOf<V>(directory: string, ext: string, m: map<string, V>): set<string> {
    set n | n in m :: BackingPath(directory, n, ext)
  }

  /**
    A file is registered under a name exactly when it has an owner record
    (so the "BUG: missing resource acquired by record" panics cannot fire),
    and each registered file is its name's backing file.
   */
  ghost predicate Indexed(directory: string, ext: string, k: map<string, File>, r: map<File, Session>) {
    && k.Values == r.Keys
    && (forall n | n in k :: k[n] in r)
    && (forall n | n in k :: k[n].path == BackingPath(directory, n, ext))
  }

  /** A name that is not registered has a backing file no registered name shares. */
  lemma UnregisteredPathFree<V>(directory: string, ext: string, k: map<string, V>, name: string)
    requires name !in k
    ensures BackingPath(directory, name, ext) !in PathsOf(directory, ext, k)
  {
    forall n | n in k ensures BackingPath(directory, n, ext) != BackingPath(directory, name, ext) {
      if BackingPath(directory, n, ext) == BackingPath(directory, name, ext) {
        BackingPathInjective(directory, ext, n, name);
      }
    }
  }

  /** `acquire`'s bookkeeping: registering a fresh file under a new name. */
  lemma Register(directory: string, ext: string, k: map<string, File>, r: map<File, Session>, name: string, f: File, client: Session)
    requires Indexed(directory, ext, k, r)
    requires name !in k && f !in r && f.path == BackingPath(directory, name, ext)
    ensures Indexed(directory, ext, k[name := f], r[f := client])
    ensures OwnersOf(k[name := f], r[f := client]) == OwnersOf(k, r)[name := client]
    ensures PathsOf(directory, ext, k[name := f]) == PathsOf(directory, ext, k) + {f.path}
  {
    RegisterValues(k, name, f);
    RegisterIndexed(directory, ext, k, r, name, f, client);
    RegisterOwners(directory, ext, k, r, name, f, client);
    RegisterPaths(directory, ext, k, name, f);
  }

  lemma RegisterIndexed(directory: string, ext: string, k: map<string, File>, r: map<File, Session>, name: string, f: File, client: Session)
    requires Indexed(directory, ext, k, r)
    requires name !in k && f.path == BackingPath(directory, name, ext)
    requires k[name := f].Values == k.Values + {f}
    ensures Indexed(directory, ext, k[name := f], r[f := client])
  {
  }

  lemma RegisterPaths(directory: string, ext: string, k: map<string, File>, name: string, f: File)
    requires f.path == BackingPath(directory, name, ext)
    ensures PathsOf(directory, ext, k[name := f]) == PathsOf(directory, ext, k) + {f.path}
  {
  }

  lemma RegisterValues(k: map<string, File>, name: string, f: File)
    requires name !in k
    ensures k[name := f].Values == k.Values + {f}
  {
    var k' := k[name := f];
    forall x | x in k.Values ensures x in k'.Values {
      var j :| j in k && k[j] == x;
      assert k'[j] == x;
    }
    assert k'[name] == f;
  }

  lemma RegisterOwners(directory: string, ext: string, k: map<string, File>, r: map<File, Session>, name: string, f: File, client: Session)
    requires Indexed(directory, ext, k, r)
    requires name !in k && f !in r
    ensures OwnersOf(k[name := f], r[f := client]) == OwnersOf(k, r)[name := client]
  {
    var owners, owners' := OwnersOf(k, r), OwnersOf(k[name := f], r[f := client]);
    forall n | n in owners ensures owners'[n] == owners[n] {
      assert k[n] != f;
    }
  }

  /** `release`'s bookkeeping: forgetting a registered name and its file. */
  lemma Unregister(directory: string, ext: string, k: map<string, File>, r: map<File, Session>, name: string)
    requires Indexed(directory, ext, k, r)
    requires name in k
    ensures Indexed(directory, ext, k - {name}, r - {k[name]})
    ensures OwnersOf(k - {name}, r - {k[name]}) == OwnersOf(k, r) - {name}
    ensures PathsOf(directory, ext, k - {name}) == PathsOf(directory, ext, k) - {k[name].path}
  {
    var k' := k - {name};
    forall n | n in k' ensures k[n] != k[name] && k[n].path != k[name].path {
      if k[n].path == k[name].path {
        BackingPathInjective(directory, ext, n, name);
      }
    }
    forall x | x in k.Values - {k[name]} ensures x in k'.Values {
      var j :| j in k && k[j] == x;
      assert k'[j] == x;
    }
  }

  /** `ProcessDisconnect`'s bookkeeping: forgetting every file a session owns. */
  lemma Disconnect(directory: string, ext: string, k: map<string, File>, r: map<File, Session>, client: Session, dropped: seq<File>)
    requires Indexed(directory, ext, k, r)
    requires forall g :: g in dropped <==> g in r && r[g] == client
    ensures var k' := Forget(k, dropped);
      var r' := Disown(r, client);
      && Indexed(directory, ext, k', r')
      && OwnersOf(k', r') == Disown(OwnersOf(k, r), client)
      && PathsOf(directory, ext, k') == PathsOf(directory, ext, k) - (set g | g in dropped :: g.path)
  {
    DisconnectIndexed(directory, ext, k, r, client, dropped);
    DisconnectOwners(directory, ext, k, r, client, dropped, OwnersOf(k, r));
    DisconnectPaths(directory, ext, k, r, client, dropped);
  }

  lemma DisconnectIndexed(directory: string, ext: string, k: map<string, File>, r: map<File, Session>, client: Session, dropped: seq<File>)
    requires Indexed(directory, ext, k, r)
    requires forall g :: g in dropped <==> g in r && r[g] == client
    ensures Indexed(directory, ext, Forget(k, dropped), Disown(r, client))
  {
    var k' := Forget(k, dropped);
    var r' := Disown(r, client);
    forall g | g in k'.Values ensures g in r' {
      var n :| n in k' && k'[n] == g;
      assert k[n] in k.Values;
    }
    forall g | g in r' ensures g in k'.Values {
      var n :| n in k && k[n] == g;
      assert k'[n] == g;
    }
  }

  lemma DisconnectOwners(directory: string, ext: string, k: map<string, File>, r: map<File, Session>, client: Session, dropped: seq<File>,
                         owners: map<string, Session>)
    requires Indexed(directory, ext, k, r) && owners == OwnersOf(k, r)
    requires forall g :: g in dropped <==> g in r && r[g] == client
    ensures OwnersOf(Forget(k, dropped), Disown(r, client))
         == Disown(owners, client)
  {
  }

  lemma DisconnectPaths(directory: string, ext: string, k: map<string, File>, r: map<File, Session>, client: Session, dropped: seq<File>)
    requires Indexed(directory, ext, k, r)
    requires forall g :: g in dropped <==> g in r && r[g] == client
    ensures PathsOf(directory, ext, Forget(k, dropped))
         == PathsOf(directory, ext, k) - (set g | g in dropped :: g.path)
  {
    var k' := Forget(k, dropped);
    var gone := set g | g in dropped :: g.path;
    forall x | x in PathsOf(directory, ext, k) - gone ensures x in PathsOf(directory, ext, k') {
      var n :| n in k && BackingPath(directory, n, ext) == x;
      assert k[n] !in dropped by {
        assert k[n].path == x;
      }
    }
    forall x | x in PathsOf(directory, ext, k') ensures x !in gone {
      var n :| n in k' && BackingPath(directory, n, ext) == x;
      forall g | g in dropped ensures g.path != x {
        assert g in k.Values;
        var m :| m in k && k[m] == g;
        if g.path == x {
          BackingPathInjective(directory, ext, m, n);
        }
      }
    }
  }

  /** The files a disconnect closes are the backing files of the names the session owns. */
  lemma DroppedPaths(directory: string, ext: string, k: map<string, File>, r: map<File, Session>, client: Session, dropped: seq<File>)
    requires Indexed(directory, ext, k, r)
    requires forall g :: g in dropped <==> g in r && r[g] == client
    ensures (set g | g in dropped :: g.path) == PathsOf(directory, ext, Owned(OwnersOf(k, r), client))
  {
    var owners := OwnersOf(k, r);
    var closed := set g | g in dropped :: g.path;
    var owned := PathsOf(directory, ext, Owned(owners, client));
    forall x | x in closed ensures x in owned {
      var g :| g in dropped && g.path == x;
      var n :| n in k && k[n] == g;
      assert n in Owned(owners, client);
    }
    forall x | x in owned ensures x in closed {
      var n :| n in Owned(owners, client) && BackingPath(directory, n, ext) == x;
      assert k[n] in dropped;
    }
  }
}

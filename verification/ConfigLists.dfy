// The three lists the operator edits, in the daemon's memory, in the config file
// and through the offline commands (internal/daemon/supervisor.go:363-548,
// cmd/tdm/priority.go, cmd/tdm/exclude.go, cmd/tdm/drop_exclude.go,
// internal/config/persist.go).
module ConfigLists {
  import opened Common

  datatype Value = Items(items: seq<string>) | Other(text: string)

  // The config file: absent, not readable, not JSON, or a document. An empty file
  // is the empty document.
  datatype File = Missing | Unreadable | Garbage(text: string) | Doc(entries: map<string, Value>)

  datatype Which = Priority | Exclude | DropExclude

  datatype Action = ListAll | Add | Remove | Set

  function Key(w: Which): string {
    match w case Priority => "priority" case Exclude => "exclude" case DropExclude => "drop_exclude"
  }

  // SaveKey: one key of the document is written, or the file stays as it was.
  function Save(f: File, key: string, items: seq<string>, writeOk: bool): (File, bool) {
    match f
    case Unreadable => (f, false)
    case Garbage(_) => (f, false)
    case Missing => if writeOk then (Doc(map[key := Items(items)]), true) else (f, false)
    case Doc(m) => if writeOk then (Doc(m[key := Items(items)]), true) else (f, false)
  }

  function Added(list: seq<string>, items: seq<string>): seq<string>
    decreases |items|
  {
    if items == [] then list
    else Added(if items[0] in list then list else list + [items[0]], items[1..])
  }

  function Removed(list: seq<string>, items: seq<string>): seq<string> {
    Filter(list, g => g !in items)
  }

  function Changed(list: seq<string>, a: Action, items: seq<string>): seq<string> {
    match a
    case ListAll => list
    case Add => Added(list, items)
    case Remove => Removed(list, items)
    case Set => items
  }

  // ------------------------------------------------------------------
  // List editing in the offline commands
  // ------------------------------------------------------------------

  method AddGames(list: seq<string>, add: seq<string>) returns (out: seq<string>)
    ensures out == Added(list, add)
  {
    out := list;
    for k := 0 to |add|
      invariant Added(list, add) == Added(out, add[k..])
    {
      assert add[k..][1..] == add[k + 1..];
      var found := false;
      for j := 0 to |out|
        invariant found <==> add[k] in out[..j]
      {
        if out[j] == add[k] {
          found := true;
          assert out[..j + 1][j] == add[k];
          break;
        }
      }
      assert !found ==> out[..|out|] == out;
      if !found {
        out := out + [add[k]];
      }
    }
  }

  method RemoveGamesFromList(list: seq<string>, drop: seq<string>) returns (out: seq<string>)
    ensures out == Removed(list, drop)
  {
    if |drop| == 0 {
      FilterKeeps(list, g => g !in drop);
      return list;
    }
    var dropSet: set<string> := {};
    for k := 0 to |drop|
      invariant forall g :: g in dropSet <==> g in drop[..k]
    {
      dropSet := dropSet + {drop[k]};
    }
    assert drop[..|drop|] == drop;
    out := [];
    ghost var keep := g => g !in drop;
    for k := 0 to |list|
      invariant out == Filter(list[..k], keep)
    {
      assert list[..k + 1] == list[..k] + [list[k]];
      FilterAppend(list[..k], [list[k]], keep);
      if list[k] in dropSet {
        continue;
      }
      out := out + [list[k]];
    }
    assert list[..|list|] == list;
  }

  // Adding keeps what was there in place and appends each missing name once.
  lemma {:induction false} AddedExact(list: seq<string>, items: seq<string>)
    ensures list <= Added(list, items)
    ensures forall g :: g in Added(list, items) <==> g in list || g in items
    ensures NoRepeats(list) ==> NoRepeats(Added(list, items))
    decreases |items|
  {
    if items != [] {
      AddedExact(if items[0] in list then list else list + [items[0]], items[1..]);
      assert items == [items[0]] + items[1..];
    }
  }

  // Adding works item by item: the last item is appended if it is not there by then.
  lemma {:induction false} AddedSnoc(list: seq<string>, items: seq<string>, item: string)
    ensures Added(list, items + [item]) ==
            Added(list, items) + if item in list || item in items then [] else [item]
    decreases |items|
  {
    AddedExact(list, items);
    if items == [] {
      assert [] + [item] == [item];
      assert [item][1..] == [];
      assert list + [] == list;
    } else {
      assert (items + [item])[1..] == items[1..] + [item];
      AddedSnoc(if items[0] in list then list else list + [items[0]], items[1..], item);
      assert items == [items[0]] + items[1..];
    }
  }

  predicate NoRepeats(list: seq<string>) {
    forall i, j :: 0 <= i < j < |list| ==> list[i] != list[j]
  }

  // Removing what was just added gives the list back, if none of it was there before.
  lemma RemoveUndoesAdd(list: seq<string>, items: seq<string>)
    requires forall g :: g in items ==> g !in list
    ensures Removed(Added(list, items), items) == list
  {
    AddedExact(list, items);
    var all := Added(list, items);
    AddedSuffix(list, items);
    assert all == list + all[|list|..];
    FilterAppend(list, all[|list|..], g => g !in items);
    FilterKeeps(list, g => g !in items);
    FilterDrops(all[|list|..], g => g !in items);
  }

  lemma {:induction false} AddedSuffix(list: seq<string>, items: seq<string>)
    ensures list <= Added(list, items)
    ensures forall g :: g in Added(list, items)[|list|..] ==> g in items
    decreases |items|
  {
    if items != [] {
      var next := if items[0] in list then list else list + [items[0]];
      AddedSuffix(next, items[1..]);
      var all := Added(list, items);
      assert next <= all;
      forall g | g in all[|list|..]
        ensures g in items
      {
        var k :| |list| <= k < |all| && all[k] == g;
        if k >= |next| {
          assert g in all[|next|..];
        }
      }
    }
  }

  lemma {:induction false} FilterKeeps(s: seq<string>, p: string -> bool)
    requires forall x :: x in s ==> p(x)
    ensures Filter(s, p) == s
  {
    if s != [] {
      FilterKeeps(s[1..], p);
    }
  }

  lemma {:induction false} FilterDrops(s: seq<string>, p: string -> bool)
    requires forall x :: x in s ==> !p(x)
    ensures Filter(s, p) == []
  {
    if s != [] {
      FilterDrops(s[1..], p);
    }
  }

  // ------------------------------------------------------------------
  // The daemon
  // ------------------------------------------------------------------

  datatype Memory = Memory(priority: seq<string>, exclude: seq<string>, dropExclude: seq<string>)

  function Get(m: Memory, w: Which): seq<string> {
    match w case Priority => m.priority case Exclude => m.exclude case DropExclude => m.dropExclude
  }

  function Put(m: Memory, w: Which, list: seq<string>): Memory {
    match w
    case Priority => m.(priority := list)
    case Exclude => m.(exclude := list)
    case DropExclude => m.(dropExclude := list)
  }

  // One request; writeOk is what the disk does if asked to write. Without a
  // config path the change stays in memory.
  datatype Request = Request(which: Which, action: Action, items: seq<string>, writeOk: bool)

  function Serve(m: Memory, f: File, hasPath: bool, r: Request): (Memory, File, bool) {
    var list := Changed(Get(m, r.which), r.action, r.items);
    if r.action.ListAll? || !hasPath then (Put(m, r.which, list), f, true)
    else
      var (f', ok) := Save(f, Key(r.which), list, r.writeOk);
      if ok then (Put(m, r.which, list), f', true) else (m, f', false)
  }

  // The daemon's own removal: a fresh list without the dropped names.
  method RemoveGames(list: seq<string>, drop: seq<string>) returns (out: seq<string>)
    ensures out == Removed(list, drop)
  {
    if |drop| == 0 {
      FilterKeeps(list, g => g !in drop);
      return list;
    }
    var dropSet: set<string> := {};
    for k := 0 to |drop|
      invariant forall g :: g in dropSet <==> g in drop[..k]
    {
      dropSet := dropSet + {drop[k]};
    }
    assert drop[..|drop|] == drop;
    out := [];
    for k := 0 to |list|
      invariant out == Removed(list[..k], drop)
    {
      RemovedSnoc(list, k, drop);
      if list[k] in dropSet {
        continue;
      }
      out := out + [list[k]];
    }
    assert list[..|list|] == list;
  }

  lemma RemovedSnoc(list: seq<string>, k: nat, drop: seq<string>)
    requires k < |list|
    ensures Removed(list[..k + 1], drop) == Removed(list[..k], drop) + if list[k] in drop then [] else [list[k]]
  {
    assert list[..k + 1] == list[..k] + [list[k]];
    FilterAppend(list[..k], [list[k]], g => g !in drop);
  }

  class ConfigFile {
    var file: File

    constructor (file: File)
      ensures this.file == file
    {
      this.file := file;
    }

    method SaveKey(key: string, items: seq<string>, writeOk: bool) returns (ok: bool)
      modifies this
      ensures (file, ok) == Save(old(file), key, items, writeOk)
    {
      var doc: map<string, Value> := map[];
      if file.Doc? {
        doc := file.entries;
      } else if file.Garbage? || file.Unreadable? {
        return false;
      }
      doc := doc[key := Items(items)];
      if !writeOk {
        return false;
      }
      file := Doc(doc);
      return true;
    }
  }

  class Supervisor {
    var priority: seq<string>
    var exclude: seq<string>
    var dropExclude: seq<string>
    const config: ConfigFile
    const hasPath: bool

    ghost function View(): Memory
      reads this
    {
      Memory(priority, exclude, dropExclude)
    }

    constructor (m: Memory, config: ConfigFile, hasPath: bool)
      ensures View() == m && this.config == config && this.hasPath == hasPath
    {
      priority, exclude, dropExclude := m.priority, m.exclude, m.dropExclude;
      this.config := config;
      this.hasPath := hasPath;
    }

    method UpdatePriority(action: Action, games: seq<string>, writeOk: bool) returns (ok: bool, list: seq<string>)
      modifies this, config
      ensures (View(), config.file, ok) ==
              Serve(old(View()), old(config.file), hasPath, Request(Priority, action, games, writeOk))
      ensures ok ==> list == priority
    {
      var previous := priority;
      match action {
        case ListAll =>
        case Add =>
          for k := 0 to |games|
            invariant View() == old(View()).(priority := priority) && config.file == old(config.file)
            invariant Added(previous, games) == Added(priority, games[k..])
          {
            assert games[k..][1..] == games[k + 1..];
            var found := false;
            for j := 0 to |priority|
              invariant found <==> games[k] in priority[..j]
            {
              if priority[j] == games[k] {
                found := true;
                assert priority[..j + 1][j] == games[k];
                break;
              }
            }
            assert !found ==> priority[..|priority|] == priority;
            if !found {
              priority := priority + [games[k]];
            }
          }
        case Remove => priority := RemoveGames(priority, games);
        case Set => priority := games;
      }
      if action != ListAll && hasPath {
        var saved := config.SaveKey("priority", priority, writeOk);
        if !saved {
          priority := previous;
          return false, [];
        }
      }
      return true, priority;
    }

    method UpdateExclude(action: Action, games: seq<string>, writeOk: bool) returns (ok: bool, list: seq<string>)
      modifies this, config
      ensures (View(), config.file, ok) ==
              Serve(old(View()), old(config.file), hasPath, Request(Exclude, action, games, writeOk))
      ensures ok ==> list == exclude
    {
      var previous := exclude;
      match action {
        case ListAll =>
        case Add =>
          for k := 0 to |games|
            invariant View() == old(View()).(exclude := exclude) && config.file == old(config.file)
            invariant Added(previous, games) == Added(exclude, games[k..])
          {
            assert games[k..][1..] == games[k + 1..];
            var found := false;
            for j := 0 to |exclude|
              invariant found <==> games[k] in exclude[..j]
            {
              if exclude[j] == games[k] {
                found := true;
                assert exclude[..j + 1][j] == games[k];
                break;
              }
            }
            assert !found ==> exclude[..|exclude|] == exclude;
            if !found {
              exclude := exclude + [games[k]];
            }
          }
        case Remove => exclude := RemoveGames(exclude, games);
        case Set => exclude := games;
      }
      if action != ListAll && hasPath {
        var saved := config.SaveKey("exclude", exclude, writeOk);
        if !saved {
          exclude := previous;
          return false, [];
        }
      }
      return true, exclude;
    }

    method UpdateDropExclude(action: Action, keywords: seq<string>, writeOk: bool) returns (ok: bool, list: seq<string>)
      modifies this, config
      ensures (View(), config.file, ok) ==
              Serve(old(View()), old(config.file), hasPath, Request(DropExclude, action, keywords, writeOk))
      ensures ok ==> list == dropExclude
    {
      var previous := dropExclude;
      match action {
        case ListAll =>
        case Add =>
          for k := 0 to |keywords|
            invariant View() == old(View()).(dropExclude := dropExclude) && config.file == old(config.file)
            invariant Added(previous, keywords) == Added(dropExclude, keywords[k..])
          {
            assert keywords[k..][1..] == keywords[k + 1..];
            var found := false;
            for j := 0 to |dropExclude|
              invariant found <==> keywords[k] in dropExclude[..j]
            {
              if dropExclude[j] == keywords[k] {
                found := true;
                assert dropExclude[..j + 1][j] == keywords[k];
                break;
              }
            }
            assert !found ==> dropExclude[..|dropExclude|] == dropExclude;
            if !found {
              dropExclude := dropExclude + [keywords[k]];
            }
          }
        case Remove => dropExclude := RemoveGames(dropExclude, keywords);
        case Set => dropExclude := keywords;
      }
      if action != ListAll && hasPath {
        var saved := config.SaveKey("drop_exclude", dropExclude, writeOk);
        if !saved {
          dropExclude := previous;
          return false, [];
        }
      }
      return true, dropExclude;
    }
  }

  // ------------------------------------------------------------------
  // The offline commands
  // ------------------------------------------------------------------

  // The list a fresh load of the file gives; a missing key is the empty list.
  function Loaded(f: File, w: Which): seq<string> {
    if f.Doc? && Key(w) in f.entries && f.entries[Key(w)].Items? then f.entries[Key(w)].items else []
  }

  // The file can be loaded: an absent file only where it was not named explicitly.
  predicate Loads(f: File, explicitPath: bool) {
    f.Doc? || (f.Missing? && !explicitPath)
  }

  function Offline(f: File, explicitPath: bool, r: Request): (File, bool) {
    if !Loads(f, explicitPath) then (f, false)
    else if r.action.ListAll? then (f, true)
    else Save(f, Key(r.which), Changed(Loaded(f, r.which), r.action, r.items), r.writeOk)
  }

  method RunOffline(config: ConfigFile, explicitPath: bool, r: Request) returns (ok: bool)
    modifies config
    ensures (config.file, ok) == Offline(old(config.file), explicitPath, r)
  {
    if !(config.file.Doc? || (config.file.Missing? && !explicitPath)) {
      return false;
    }
    var updated := Loaded(config.file, r.which);
    match r.action {
      case ListAll => return true;
      case Add => updated := AddGames(updated, r.items);
      case Remove => updated := RemoveGamesFromList(updated, r.items);
      case Set => updated := r.items;
    }
    ok := config.SaveKey(Key(r.which), updated, r.writeOk);
  }

  // ------------------------------------------------------------------
  // Memory, disk and the offline commands agree
  // ------------------------------------------------------------------

  // The keys of the three lists hold lists.
  predicate ListsWellTyped(f: File) {
    f.Doc? ==> forall w: Which :: Key(w) in f.entries ==> f.entries[Key(w)].Items?
  }

  predicate InSync(m: Memory, f: File) {
    ListsWellTyped(f) && (f.Doc? || f.Missing?) && forall w: Which :: Get(m, w) == Loaded(f, w)
  }

  // Keys other than the three lists are as they were.
  ghost predicate OthersKept(f: File, f': File) {
    forall k: string :: (forall w: Which :: k != Key(w)) ==> Entry(f, k) == Entry(f', k)
  }

  function Entry(f: File, k: string): Option<Value> {
    if f.Doc? && k in f.entries then Some(f.entries[k]) else None
  }

  lemma KeysDiffer(a: Which, b: Which)
    ensures Key(a) == Key(b) <==> a == b
  {
    assert |Key(Priority)| == 8 && |Key(Exclude)| == 7 && |Key(DropExclude)| == 12;
  }

  lemma ServeKeepsSync(m: Memory, f: File, r: Request)
    requires InSync(m, f)
    ensures var (m', f', ok) := Serve(m, f, true, r);
            InSync(m', f') && OthersKept(f, f') && (!ok ==> m' == m && f' == f)
  {
    var (m', f', ok) := Serve(m, f, true, r);
    forall w: Which
      ensures Get(m', w) == Loaded(f', w)
    {
      KeysDiffer(w, r.which);
      assert Get(m, w) == Loaded(f, w) && Get(m, r.which) == Loaded(f, r.which);
    }
  }

  // The state after a sequence of requests, and the requests that succeeded.
  function ServeAll(m: Memory, f: File, rs: seq<Request>): (Memory, File, seq<Request>) {
    if rs == [] then (m, f, [])
    else
      var (m1, f1, done) := ServeAll(m, f, rs[..|rs| - 1]);
      var (m2, f2, ok) := Serve(m1, f1, true, rs[|rs| - 1]);
      (m2, f2, if ok then done + [rs[|rs| - 1]] else done)
  }

  function OfflineAll(f: File, explicitPath: bool, rs: seq<Request>): (File, bool) {
    if rs == [] then (f, true)
    else
      var (f1, ok1) := OfflineAll(f, explicitPath, rs[..|rs| - 1]);
      var (f2, ok2) := Offline(f1, explicitPath, rs[|rs| - 1]);
      (f2, ok1 && ok2)
  }

  // A daemon request that succeeds does to the file what the offline command does.
  lemma ServeMatchesOffline(m: Memory, f: File, explicitPath: bool, r: Request)
    requires InSync(m, f) && Loads(f, explicitPath)
    ensures var (m', f', ok) := Serve(m, f, true, r);
            Offline(f, explicitPath, r) == (f', ok) && Loads(f', explicitPath)
  {
  }

  // After any requests, with writes failing at will: memory equals the file, keys
  // other than the three lists are untouched, and the requests that succeeded,
  // run as offline commands on the original file, all succeed and leave that same file.
  lemma {:induction false} ListsAgree(m: Memory, f: File, explicitPath: bool, rs: seq<Request>)
    requires InSync(m, f) && Loads(f, explicitPath)
    ensures var (m', f', done) := ServeAll(m, f, rs);
            && InSync(m', f') && Loads(f', explicitPath)
            && OthersKept(f, f')
            && OfflineAll(f, explicitPath, done) == (f', true)
  {
    if rs != [] {
      var front, r := rs[..|rs| - 1], rs[|rs| - 1];
      ListsAgree(m, f, explicitPath, front);
      var (m1, f1, done) := ServeAll(m, f, front);
      ServeKeepsSync(m1, f1, r);
      ServeMatchesOffline(m1, f1, explicitPath, r);
      assert (done + [r])[..|done|] == done;
    }
  }

  // ------------------------------------------------------------------
  // Each action written out
  // ------------------------------------------------------------------

  // What each action makes of a list: listing nothing, setting the given items as
  // they are, adding the items in order where they are missing, and removing every
  // occurrence of the items while the rest keeps its order.
  lemma ChangedExact(list: seq<string>, items: seq<string>, item: string)
    ensures Changed(list, ListAll, items) == list
    ensures Changed(list, Set, items) == items
    ensures Changed(list, Add, []) == list
    ensures Changed(list, Add, items + [item]) ==
            Changed(list, Add, items) + if item in list || item in items then [] else [item]
    ensures Changed([], Remove, items) == []
    ensures Changed(list + [item], Remove, items) ==
            Changed(list, Remove, items) + if item in items then [] else [item]
  {
    AddedSnoc(list, items, item);
    RemovedSnoc(list + [item], |list|, items);
    assert (list + [item])[..|list|] == list && (list + [item])[..|list| + 1] == list + [item];
  }

  // The names of the keys in the file.
  predicate IsKey(w: Which, key: string) {
    match w
    case Priority => key == "priority"
    case Exclude => key == "exclude"
    case DropExclude => key == "drop_exclude"
  }

  // A request that changes its list writes it under the key of that list and leaves
  // every other entry, and fails exactly where the file cannot be read, is no JSON or
  // cannot be written; without a config path it always succeeds and writes nothing.
  lemma ServeExact(m: Memory, f: File, hasPath: bool, r: Request, key: string)
    requires r.action != ListAll && IsKey(r.which, key)
    ensures var (m', f', ok) := Serve(m, f, hasPath, r);
            && (ok <==> !hasPath || (r.writeOk && (f.Doc? || f.Missing?)))
            && (ok ==> Get(m', r.which) == Changed(Get(m, r.which), r.action, r.items))
            && (!ok ==> m' == m && f' == f)
            && (forall w: Which :: w != r.which ==> Get(m', w) == Get(m, w))
            && (!hasPath ==> f' == f)
            && (ok && hasPath ==>
                  && f'.Doc? && Entry(f', key) == Some(Items(Get(m', r.which)))
                  && forall k: string :: k != key ==> Entry(f', k) == Entry(f, k))
  {
  }

  // Listing changes nothing, whatever the file is like.
  lemma ListingExact(m: Memory, f: File, hasPath: bool, r: Request)
    requires r.action == ListAll
    ensures Serve(m, f, hasPath, r) == (m, f, true)
  {
  }

  // The offline command needs a file it can load: a document, or none at all where the
  // path was not given explicitly. Then it lists, or saves the edited list of the file.
  lemma OfflineExact(f: File, explicitPath: bool, r: Request, key: string)
    requires IsKey(r.which, key)
    ensures var (f', ok) := Offline(f, explicitPath, r);
            var loaded := match Entry(f, key) case Some(Items(list)) => list case _ => [];
            && (ok <==> (f.Doc? || (f == Missing && !explicitPath)) && (r.action == ListAll || r.writeOk))
            && (!ok || r.action == ListAll ==> f' == f)
            && (ok && r.action != ListAll ==>
                  && f'.Doc? && Entry(f', key) == Some(Items(Changed(loaded, r.action, r.items)))
                  && forall k: string :: k != key ==> Entry(f', k) == Entry(f, k))
  {
  }
}

/** The registry of backup files with its LRU cache, as the program keeps it in memory. */
module DataManagement {
  import opened Registry
  import opened Persistence
  import opened LruRing

  /** The backup directory, seen through `FileUtil`: regular files by name. */
  class Directory {
    var files: map<string, string>
    var full: bool

    constructor ()
      ensures files == map[] && !full
    {
      files, full := map[], false;
    }

    predicate Exists(name: string)
      reads this
    {
      name in files || NamesDirectory(name)
    }

    /** Truncating a directory fails. */
    method Clear(name: string) returns (ok: bool)
      modifies this
      ensures full == old(full)
      ensures ok == (name in old(files) && !NamesDirectory(name))
      ensures files == if ok then old(files)[name := ""] else old(files)
    {
      ok := Exists(name) && !NamesDirectory(name);
      if ok {
        files := files[name := ""];
      }
    }

    /** Creating an empty file needs no space; adding bytes to one does. A failure is reported only
        for data that goes to the disk at once: the result of closing the file is ignored. */
    method AppendContent(name: string, data: string) returns (ok: bool)
      modifies this
      ensures full == old(full)
      ensures ok <==> !full || |data| < DIRECT
      ensures name in files && files == old(files)[name := files[name]]
      ensures files[name] == (if name in old(files) then old(files)[name] else "") + (if full then "" else data)
    {
      if name !in files {
        files := files[name := ""];
      }
      if !full {
        files := files[name := files[name] + data];
      }
      ok := !full || |data| < DIRECT;
    }

    method RemoveRegularFile(name: string) returns (ok: bool)
      modifies this
      ensures full == old(full)
      ensures ok == (name in old(files) && !NamesDirectory(name))
      ensures files == old(files) - {name}
    {
      ok := name in files && !NamesDirectory(name);
      files := files - {name};
    }

    /** How `Register` makes sure that the file exists and is empty. */
    method CreateEmpty(name: string) returns (ok: bool)
      modifies this
      ensures full == old(full)
      ensures ok == !NamesDirectory(name)
      ensures files == if ok then old(files)[name := ""] else old(files)
    {
      if Exists(name) {
        ok := Clear(name);
      } else {
        ok := AppendContent(name, "");
      }
    }

    /** How `Deregister` and `Delete` get rid of the file. */
    method RemoveIfPresent(name: string) returns (ok: bool)
      modifies this
      ensures full == old(full) && files == old(files) - {name}
      ensures ok == !NamesDirectory(name)
    {
      assert name !in files ==> files - {name} == files;
      ok := true;
      if Exists(name) {
        ok := RemoveRegularFile(name);
      }
    }

    function GetFileSize(name: string): int
      reads this
    {
      if name in files then |files[name]| else -1
    }
  }

  class DataManager {
    var hash: map<string, Node?>
    var isDirty: bool
    const list: NodeList
    const directory: Directory
    const contentSize: nat
    /** Every node this manager has made. */
    ghost var made: set<Node>

    ghost predicate Owns(filename: string, node: Node)
      reads this, list, node
    {
      && node.filename == filename && list.Known(node)
      && (node !in list.nodes ==> node.preContent == "")
    }

    /** No list node dangles: each one is the value its own filename maps to. */
    ghost predicate Valid()
      reads this, list, made, list.guard, list.nodes
    {
      && list.Valid()
      && (forall f :: f in hash && hash[f] != null ==> hash[f] in made && Owns(f, hash[f]))
      && (forall n :: n in list.nodes ==> n in made && n.filename in hash && hash[n.filename] == n)
    }

    static ghost function EntriesOf(h: map<string, Node?>): map<string, Entry> {
      map f | f in h :: if h[f] == null then Pending else Complete(h[f].info)
    }

    /** The value that the registry, the directory and the cache list stand for. */
    ghost function View(): State
      reads this, directory, list
    {
      State(EntriesOf(hash), directory.files, list.contents, isDirty, directory.full)
    }

    ghost function Bounds(): Limits
      reads list
    {
      Limits(list.capacity, contentSize)
    }

    constructor (directory: Directory, capacity: nat, contentSize: nat)
      ensures Valid() && this.directory == directory && Bounds() == Limits(capacity, contentSize)
      ensures View() == State(map[], directory.files, [], false, directory.full)
      ensures fresh(list) && fresh(list.guard)
    {
      hash, isDirty, made := map[], false, {};
      list := new NodeList(capacity);
      this.directory, this.contentSize := directory, contentSize;
    }

    predicate IsValidFile(filename: string)
      reads this
    {
      filename in hash && hash[filename] != null
    }

    method Register(filename: string) returns (ok: bool)
      requires Valid()
      modifies this`hash, directory
      ensures Valid()
      ensures (View(), ok) == Registry.Register(old(View()), filename)
    {
      if filename in hash {
        return false;
      }
      if !CheckFilename(filename) {
        return false;
      }
      var emptied := directory.CreateEmpty(filename);
      if !emptied {
        return false;
      }
      hash := hash[filename := null];
      assert EntriesOf(hash) == EntriesOf(old(hash))[filename := Pending];
      return true;
    }

    /** A node of the ring belongs to this name. */
    ghost predicate InRing(filename: string)
      reads this, list
    {
      filename in hash && hash[filename] != null && hash[filename] in list.nodes
    }

    /** Gives up a name. Used on a file that is uploaded and cached, it would leave a dangling node. */
    method Deregister(filename: string) returns (ok: bool)
      requires Valid()
      modifies this`hash, directory
      ensures Valid() <==> !old(InRing(filename))
      ensures ok == !NamesDirectory(filename)
      ensures View() == Registry.Deregister(old(View()), filename)
    {
      assert filename !in hash ==> hash - {filename} == hash;
      if filename in hash {
        hash := hash - {filename};
      }
      assert EntriesOf(hash) == EntriesOf(old(hash)) - {filename};
      ok := directory.RemoveIfPresent(filename);
      assert old(InRing(filename)) ==> old(hash[filename]) in list.nodes && filename !in hash;
    }

    method Insert(filename: string, filesize: int, now: int) returns (ok: bool)
      requires Valid()
      modifies this
      ensures Valid() && fresh(made - old(made))
      ensures (View(), ok) == Registry.Insert(old(View()), filename, filesize, now)
    {
      if filename !in hash || hash[filename] != null {
        return false;
      }
      var node := new Node(filename, Info(filesize, now));
      hash := hash[filename := node];
      isDirty := true;
      made := made + {node};
      assert EntriesOf(hash) == EntriesOf(old(hash))[filename := Complete(node.info)];
      return true;
    }

    /** Where a cached node sits in the ring is where its name sits in the list of names. */
    lemma PositionInRing(filename: string)
      requires Valid() && IsValidFile(filename)
      ensures hash[filename] in list.nodes ==>
                Position(list.contents, filename) == NodeList.IndexOf(list.nodes, hash[filename])
      ensures hash[filename] !in list.nodes ==> Position(list.contents, filename) == -1
    {
      var i := Position(list.contents, filename);
      if i != -1 {
        assert list.contents[i].name == list.nodes[i].filename == filename;
        assert list.nodes[i] == hash[filename];
      }
      if hash[filename] in list.nodes {
        var k := NodeList.IndexOf(list.nodes, hash[filename]);
        assert list.contents[k].name == filename;
        assert NodeList.Apart(list.nodes, i, k) || i == k;
      }
    }

    /** A file is cached exactly when its node has both its pointers set. */
    method IsCached(filename: string) returns (cached: bool)
      requires Valid() && IsValidFile(filename)
      ensures cached == (hash[filename] in list.nodes) == (Position(list.contents, filename) != -1)
    {
      PositionInRing(filename);
      list.LinkedExactlyInRing(hash[filename]);
      cached := hash[filename].next != null && hash[filename].prev != null;
    }

    /** `_list.Remove` on a registered file: the file leaves the list and nothing else changes. */
    method DropFromList(filename: string)
      requires Valid() && IsValidFile(filename)
      modifies list, list.guard, list.nodes
      ensures Valid() && hash[filename] !in list.nodes
      ensures list.contents == Without(old(list.contents), filename)
    {
      PositionInRing(filename);
      var _ := list.Remove(hash[filename]);
    }

    method Forget(filename: string)
      requires Valid() && IsValidFile(filename) && hash[filename] !in list.nodes
      modifies this`hash, this`isDirty
      ensures Valid() && isDirty
      ensures EntriesOf(hash) == EntriesOf(old(hash)) - {filename}
    {
      hash := hash - {filename};
      isDirty := true;
    }

    method Delete(filename: string) returns (ok: bool)
      requires Valid()
      modifies this`hash, this`isDirty, directory, list, list.guard, list.nodes
      ensures Valid()
      ensures (View(), ok) == Registry.Delete(old(View()), filename)
    {
      if !IsValidFile(filename) {
        return false;
      }
      DropFromList(filename);
      ok := directory.RemoveIfPresent(filename);
      Forget(filename);
    }

    /** `_list.MoveToHead` on a cached file. */
    method Touch(filename: string)
      requires Valid() && IsValidFile(filename) && hash[filename] in list.nodes
      modifies list, list.guard, list.nodes
      ensures Valid() && hash[filename] in list.nodes
      ensures 0 <= Position(old(list.contents), filename)
      ensures list.contents == ToFront(old(list.contents), Position(old(list.contents), filename))
      ensures hash[filename].preContent == list.contents[0].content
    {
      PositionInRing(filename);
      var _ := list.MoveToHead(hash[filename]);
    }

    method GetFilePreContent(filename: string) returns (content: string)
      requires Valid()
      modifies list, list.guard, made
      ensures Valid()
      ensures (View(), content) == Registry.GetFilePreContent(old(View()), filename)
    {
      if !IsValidFile(filename) {
        return "";
      }
      var cached := IsCached(filename);
      if !cached {
        return "";
      }
      Touch(filename);
      return hash[filename].preContent;
    }

    /** `_list.PushToHead` on a file that is not cached. */
    method PushToList(filename: string, content: string)
      requires Valid() && IsValidFile(filename) && hash[filename] !in list.nodes
      modifies list, list.guard, list.nodes, hash[filename]
      ensures Valid()
      ensures list.contents == Trimmed([Cached(filename, content)] + old(list.contents), list.capacity)
    {
      var _ := list.PushToHead(hash[filename], content);
    }

    method PutFilePreContent(filename: string, filePreContent: string) returns (ok: bool)
      requires Valid()
      modifies list, list.guard, made
      ensures Valid()
      ensures (View(), ok) == Registry.PutFilePreContent(old(View()), Bounds(), filename, filePreContent)
    {
      var content := filePreContent;
      if |content| > contentSize {
        content := content[..contentSize];
      }
      assert content == Shorten(filePreContent, contentSize);
      if !IsValidFile(filename) {
        return false;
      }
      var cached := IsCached(filename);
      if !cached {
        PushToList(filename, content);
      } else {
        Touch(filename);
      }
      return true;
    }

    // ---- Start-up ----

    static function AllComplete(infos: map<string, Info>): map<string, Entry> {
      map f | f in infos :: Complete(infos[f])
    }

    static lemma AllCompleteWith(infos: map<string, Info>, name: string, info: Info)
      ensures AllComplete(infos[name := info]) == AllComplete(infos)[name := Complete(info)]
    {
    }

    /** `_hash[filename] = node` for a new node, while no file is cached. */
    method AddLoaded(filename: string, info: Info)
      requires Valid() && list.nodes == []
      modifies this
      ensures Valid() && isDirty == old(isDirty)
      ensures EntriesOf(hash) == EntriesOf(old(hash))[filename := Complete(info)]
    {
      var node := new Node(filename, info);
      hash := hash[filename := node];
      made := made + {node};
    }

    method LoadItem(item: Record, ghost before: seq<Record>)
      requires Valid() && list.nodes == []
      requires EntriesOf(hash) == AllComplete(Load(before))
      modifies this
      ensures Valid() && isDirty == old(isDirty)
      ensures EntriesOf(hash) == AllComplete(Load(before + [item]))
    {
      LoadSnoc(before, item);
      if item.filename == "" || item.size < 0 {
        return;
      }
      AllCompleteWith(Load(before), item.filename, Info(item.size, item.time));
      AddLoaded(item.filename, Info(item.size, item.time));
    }

    method LoadFromFile(file: MetaFile)
      requires Valid() && hash == map[] && list.nodes == []
      modifies this
      ensures Valid() && isDirty == old(isDirty)
      ensures EntriesOf(hash) == AllComplete(Loaded(file))
    {
      if file.Blank? {
        return;
      }
      var items := file.items;
      for i := 0 to |items|
        invariant Valid() && isDirty == old(isDirty)
        invariant EntriesOf(hash) == AllComplete(Load(items[..i]))
      {
        assert items[..i + 1] == items[..i] + [items[i]];
        LoadItem(items[i], items[..i]);
      }
      assert items[..|items|] == items;
    }

    /** Removes the files that are not registered, then forgets the names that have no file. */
    method VerifyFileLegality()
      requires Valid() && list.nodes == []
      modifies this, directory
      ensures Valid() && directory.full == old(directory.full)
      ensures EntriesOf(hash) == (map f | f in old(hash) && f in old(directory.files) :: EntriesOf(old(hash))[f])
      ensures directory.files == (map f | f in old(directory.files) && f in old(hash) :: old(directory.files)[f])
      ensures isDirty == (old(isDirty) || exists f :: f in old(hash) && f !in old(directory.files))
    {
      var backupFiles := RemoveUnregistered();
      var missing: set<string> := {};
      var names := hash.Keys;
      while names != {}
        invariant names <= hash.Keys
        invariant missing == set f | f in hash.Keys - names && f !in backupFiles
        decreases names
      {
        var name :| name in names;
        if name !in backupFiles {
          missing := missing + {name};
        }
        names := names - {name};
      }
      assert forall f :: f in missing <==> f in old(hash) && f !in old(directory.files);
      assert missing != {} ==> exists f :: f in missing;
      ForgetAll(missing);
    }

    method RemoveUnregistered() returns (backupFiles: set<string>)
      modifies directory
      ensures directory.full == old(directory.full)
      ensures directory.files == (map f | f in old(directory.files) && f in hash :: old(directory.files)[f])
      ensures backupFiles == old(directory.files).Keys * hash.Keys
    {
      backupFiles := {};
      var names := directory.files.Keys;
      while names != {}
        invariant names <= old(directory.files).Keys && directory.full == old(directory.full)
        invariant backupFiles == (old(directory.files).Keys - names) * hash.Keys
        invariant directory.files
               == (map f | f in old(directory.files) && (f in hash || f in names) :: old(directory.files)[f])
        decreases names
      {
        var name :| name in names;
        if name !in hash {
          var _ := directory.RemoveRegularFile(name);
        } else {
          backupFiles := backupFiles + {name};
        }
        names := names - {name};
      }
    }

    method ForgetAll(missing: set<string>)
      requires Valid() && list.nodes == []
      modifies this`hash, this`isDirty
      ensures Valid()
      ensures hash == (map f | f in old(hash) && f !in missing :: old(hash)[f])
      ensures isDirty == (old(isDirty) || missing != {})
    {
      var names := missing;
      while names != {}
        invariant Valid() && names <= missing
        invariant hash == (map f | f in old(hash) && f !in missing - names :: old(hash)[f])
        invariant isDirty == (old(isDirty) || names != missing)
        decreases names
      {
        var name :| name in names;
        hash := hash - {name};
        isDirty := true;
        names := names - {name};
      }
    }

    /** What the constructor of the data manager does with the metadata file and the directory. */
    method Start(file: MetaFile)
      requires Valid() && hash == map[] && list.nodes == [] && !isDirty
      modifies this, directory
      ensures Valid() && View() == Restart(file, old(directory.files), old(directory.full))
    {
      LoadFromFile(file);
      ghost var loaded := hash;
      assert loaded.Keys == EntriesOf(loaded).Keys == Loaded(file).Keys;
      VerifyFileLegality();
      RestartIs(file, loaded, old(directory.files), old(directory.full));
    }

    /** A restart in terms of the registry that was loaded. */
    static lemma RestartIs(file: MetaFile, loaded: map<string, Node?>, files: map<string, string>, full: bool)
      requires EntriesOf(loaded) == AllComplete(Loaded(file)) && loaded.Keys == Loaded(file).Keys
      ensures var st := Restart(file, files, full);
              && st.entries == (map f | f in loaded && f in files :: EntriesOf(loaded)[f])
              && st.files == (map f | f in files && f in loaded :: files[f])
              && st.lru == [] && st.dirty == exists f :: f in loaded && f !in files
    {
    }
  }
}

/** The upload fields of a message in memory, and the loop that works on them in place. */
module UploadMessages {
  import opened Search
  import opened Registry
  import opened DataManagement
  import opened Scanner

  /** How a turn of the loop ends. */
  datatype Flow = Continue | Break | Fail

  function Came(flow: Flow, s: Scan): Verdict {
    match flow
    case Continue => More(s)
    case Break => Stop(s)
    case Fail => Reject(s)
  }

  class UploadMessage {
    var requestBody: string
    var curUploadFile: string
    var successFiles: seq<string>
    var failFiles: seq<string>
    var rejected: bool
    const bodyBoundary: string
    const manager: DataManager

    /** A file that is open here is registered and pending. */
    ghost predicate Valid()
      reads this, manager, manager.directory, manager.list, manager.made, manager.list.guard, manager.list.nodes
    {
      manager.Valid() && (curUploadFile != "" ==> IsPending(manager.View(), curUploadFile))
    }

    ghost function Snapshot(): Scan
      reads this, manager, manager.directory, manager.list
    {
      Scan(requestBody, curUploadFile, successFiles, failFiles, manager.View())
    }

    ghost function Delimiter(): string {
      SEP + bodyBoundary
    }

    constructor (bodyBoundary: string, manager: DataManager)
      requires manager.Valid()
      ensures Valid() && this.manager == manager && this.bodyBoundary == bodyBoundary
      ensures Snapshot() == Scan("", "", [], [], manager.View()) && !rejected
    {
      requestBody, curUploadFile, successFiles, failFiles, rejected := "", "", [], [], false;
      this.bodyBoundary, this.manager := bodyBoundary, manager;
    }

    /** Reads the header block that the buffer starts with. */
    method ParseHead() returns (head: Head)
      ensures head == ReadHead(requestBody)
    {
      assert SEP + SEP == HEAD_END;
      var headEnd := Find(requestBody, SEP + SEP);
      if headEnd == -1 {
        return Incomplete;
      }
      var key := Find(requestBody, FILENAME_KEY);
      if key == -1 || key > headEnd {
        return Malformed;
      }
      var start := key + |FILENAME_KEY|;
      var end := FindFrom(requestBody, "\"", start);
      if end == -1 || end > headEnd {
        return Malformed;
      }
      return Named(requestBody[start..end], headEnd + |SEP| * 2);
    }

    /** The end of the header branch: the part's name becomes the open file, if it is accepted. */
    method TakeUp(name: string, after: nat)
      requires Valid() && curUploadFile == "" && after <= |requestBody|
      modifies this, manager, manager.directory
      ensures Valid() && rejected == old(rejected)
      ensures Snapshot() == OpenFile(old(Snapshot()), name, old(requestBody)[after..])
    {
      curUploadFile := name;
      requestBody := requestBody[after..];
      var accepted := CheckFilename(curUploadFile);
      if accepted {
        accepted := manager.Register(curUploadFile);
      }
      if !accepted {
        failFiles := failFiles + [curUploadFile];
        curUploadFile := "";
      }
    }

    /** A write failed. */
    method GiveUp()
      requires Valid() && curUploadFile != ""
      modifies this, manager, manager.directory
      ensures Valid() && rejected == old(rejected)
      ensures Snapshot() == AbandonFile(old(Snapshot()))
    {
      var _ := manager.Deregister(curUploadFile);
      failFiles := failFiles + [curUploadFile];
      curUploadFile := "";
    }

    /** The delimiter has been reached. */
    method Finish(now: int)
      requires Valid() && curUploadFile != ""
      modifies this, manager, manager.directory
      ensures Valid() && rejected == old(rejected)
      ensures Snapshot() == CloseFile(Config(bodyBoundary, now), old(Snapshot()))
    {
      successFiles := successFiles + [curUploadFile];
      var size := manager.directory.GetFileSize(curUploadFile);
      var _ := manager.Insert(curUploadFile, size, now);
      curUploadFile := "";
    }

    /** The branch taken while no file is open. */
    method SkipToFile(now: int) returns (flow: Flow)
      requires Valid() && curUploadFile == "" && |requestBody| > |Delimiter()|
      modifies this, manager, manager.directory
      ensures Valid() && rejected == old(rejected)
      ensures SkipIteration(Config(bodyBoundary, now), old(Snapshot())) == Came(flow, Snapshot())
      ensures flow == Continue ==> |requestBody| < old(|requestBody|)
    {
      var pos := Find(requestBody, bodyBoundary);
      if pos == -1 {
        if |requestBody| > |bodyBoundary| {
          requestBody := requestBody[|requestBody| - |bodyBoundary|..];
        }
        return Continue;
      }
      if pos > 0 {
        requestBody := requestBody[pos..];
      }
      var head := ParseHead();
      match head {
        case Incomplete => return Break;
        case Malformed => return Fail;
        case Named(name, after) =>
          TakeUp(name, after);
          return Continue;
      }
    }

    /** Takes `n` bytes off the buffer and appends them to the file. */
    method WriteOut(n: nat) returns (appended: bool)
      requires Valid() && curUploadFile != "" && n <= |requestBody|
      modifies this, manager, manager.directory
      ensures Valid() && rejected == old(rejected)
      ensures var s := old(Snapshot());
              var (store, ok) := if n == 0 then (s.store, true) else Append(s.store, s.open, s.body[..n]);
              appended == ok && Snapshot() == s.(body := s.body[n..], store := store)
    {
      if n == 0 {
        assert requestBody[0..] == requestBody;
        return true;
      }
      var content := requestBody[..n];
      requestBody := requestBody[n..];
      appended := manager.directory.AppendContent(curUploadFile, content);
    }

    /** The branch taken while a file is open. */
    method WriteToFile(now: int)
      requires Valid() && curUploadFile != "" && |requestBody| > |Delimiter()|
      modifies this, manager, manager.directory
      ensures Valid() && rejected == old(rejected)
      ensures FileIteration(Config(bodyBoundary, now), old(Snapshot())) == More(Snapshot())
      ensures |requestBody| < old(|requestBody|) || (requestBody == old(requestBody) && curUploadFile == "")
    {
      var size := |requestBody| - |bodyBoundary| - |SEP|;
      var pos := Find(requestBody, SEP + bodyBoundary);
      if pos != -1 {
        size := pos;
      }
      var appended := WriteOut(size);
      if !appended {
        GiveUp();
        return;
      }
      if pos != -1 {
        Finish(now);
      }
    }

    method ProcessUploadBody(now: int) returns (ok: bool)
      requires Valid()
      modifies this, manager, manager.directory
      ensures Valid() && rejected == old(rejected)
      ensures (Snapshot(), ok) == Scanner.ProcessUploadBody(Config(bodyBoundary, now), old(Snapshot()))
    {
      ghost var c := Config(bodyBoundary, now);
      while |requestBody| > |bodyBoundary| + |SEP|
        invariant Valid() && rejected == old(rejected)
        invariant Scanner.ProcessUploadBody(c, Snapshot()) == Scanner.ProcessUploadBody(c, old(Snapshot()))
        decreases |requestBody|, if curUploadFile != "" then 1 else 0
      {
        if curUploadFile == "" {
          var flow := SkipToFile(now);
          if flow == Break {
            break;
          }
          if flow == Fail {
            return false;
          }
        } else {
          WriteToFile(now);
        }
      }
      return true;
    }

    method OnBody(now: int, chunk: string)
      requires Valid()
      modifies this, manager, manager.directory
      ensures Valid()
      ensures Message(Snapshot(), rejected)
           == Scanner.OnBody(Config(bodyBoundary, now), old(Message(Snapshot(), rejected)), chunk)
    {
      if rejected {
        return;
      }
      requestBody := requestBody + chunk;
      assert Snapshot() == old(Snapshot()).(body := old(requestBody) + chunk);
      var ok := ProcessUploadBody(now);
      if !ok {
        rejected := true;
      }
    }

    /** `on_message_begin`: the open file's name is dropped, and stays registered. */
    method Clear()
      requires Valid()
      modifies this
      ensures Valid() && !rejected && Snapshot() == Scan("", "", [], [], old(Snapshot()).store)
    {
      requestBody, curUploadFile, successFiles, failFiles, rejected := "", "", [], [], false;
    }

    /** The destructor: the open file is given up. */
    method Destroy()
      requires Valid()
      modifies manager, manager.directory
      ensures manager.Valid()
      ensures var before := old(manager.View());
              manager.View() == if curUploadFile == "" then before else Registry.Deregister(before, curUploadFile)
    {
      if curUploadFile != "" {
        var _ := manager.Deregister(curUploadFile);
      }
    }
  }
}

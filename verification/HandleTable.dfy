/**
 The table of open handles (internal/fs/handles.go) and the sharing rule of Open
 (internal/fs/fileops.go): a file is open for any number of readers or for one writer.
 */
module HandleTable {
  import opened Basics

  const MAX_IDLE := 3600      // seconds: an hour
  const EMFILE := 24

  datatype Handle = FileHandle(name: string, readOnly: bool) | DirHandle(dirPath: string)

  type Slots = seq<Option<Handle>>

  /** Slot i holds an open file that reports this name. */
  predicate Names(hs: Slots, i: nat, name: string) {
    i < |hs| && hs[i].Some? && hs[i].value.FileHandle? && hs[i].value.name == name
  }

  /**
   Two handles that report the same name are both read-only: many readers, or one writer alone.
   Writers report a real name; only compressed images report the empty one.
   */
  ghost predicate Shared(hs: Slots) {
    && (forall i: nat, j: nat, name: string :: i != j && Names(hs, i, name) && Names(hs, j, name) ==>
          hs[i].value.readOnly && hs[j].value.readOnly)
    && !IsWritten(hs, "")
  }

  /** A handle that the sharing rule lets in. */
  predicate Welcome(hs: Slots, h: Handle) {
    h.FileHandle? ==> if h.readOnly then !IsWritten(hs, h.name) else !IsOpen(hs, h.name) && h.name != ""
  }

  predicate IsOpen(hs: Slots, name: string) {
    exists i :: 0 <= i < |hs| && Names(hs, i, name)
  }

  predicate IsWritten(hs: Slots, name: string) {
    exists i :: 0 <= i < |hs| && Names(hs, i, name) && !hs[i].value.readOnly
  }

  /** Where a new handle goes: the first free slot, else the longest idle one if it is idle enough. */
  predicate AllocatesAt(hs: Slots, used: seq<int>, now: int, k: nat)
    requires |hs| == |used|
  {
    && k < |hs|
    && if exists i :: 0 <= i < |hs| && hs[i].None?
       then hs[k].None? && forall i :: 0 <= i < k ==> hs[i].Some?
       else && now - used[k] >= MAX_IDLE
            && (forall i :: 0 <= i < |hs| ==> used[k] <= used[i])
            && (forall i :: 0 <= i < k ==> used[k] < used[i])
  }

  /** A handle that agrees with the rule may join: replacing any slot by it keeps the rule. */
  lemma JoinKeepsShared(hs: Slots, k: nat, h: Handle)
    requires Shared(hs) && k < |hs|
    requires Welcome(hs, h)
    ensures Shared(hs[k := Some(h)])
  {
    var hs' := hs[k := Some(h)];
    forall i: nat, j: nat, name: string | i != j && Names(hs', i, name) && Names(hs', j, name)
      ensures hs'[i].value.readOnly && hs'[j].value.readOnly
    {
      assert i != k ==> Names(hs, i, name);
      assert j != k ==> Names(hs, j, name);
    }
    assert !IsWritten(hs', "") by {
      assert forall i :: 0 <= i < |hs| && i != k && Names(hs', i, "") ==> Names(hs, i, "");
    }
  }

  lemma LeaveKeepsShared(hs: Slots, k: nat)
    requires Shared(hs) && k < |hs|
    ensures Shared(hs[k := None])
  {
    var hs' := hs[k := None];
    forall i: nat, j: nat, name: string | i != j && Names(hs', i, name) && Names(hs', j, name)
      ensures hs'[i].value.readOnly && hs'[j].value.readOnly
    {
      assert Names(hs, i, name) && Names(hs, j, name);
    }
    assert forall i :: 0 <= i < |hs| && Names(hs', i, "") ==> Names(hs, i, "");
  }

  /** What the operating system makes of a path that passed the sharing rule. */
  datatype Target = Directory | CompressedImage | PlainFile | NoSuchFile | OsError

  datatype OpenResult = Opened(handle: int) | NoHandles | PermissionDenied | NotFound | Failed

  class Backend {
    const handles: array<Option<Handle>>
    const lastUsed: array<int>
    const readOnly: bool
    const bdHandle: Option<Handle>

    ghost predicate Valid()
      reads this, handles, lastUsed
    {
      handles.Length == lastUsed.Length == MAX_HANDLES && Shared(handles[..])
    }

    constructor (readOnly: bool, bdHandle: Option<Handle>)
      ensures Valid() && this.readOnly == readOnly && this.bdHandle == bdHandle && fresh(handles) && fresh(lastUsed)
      ensures forall i :: 0 <= i < MAX_HANDLES ==> handles[i] == None
    {
      this.readOnly, this.bdHandle := readOnly, bdHandle;
      handles := new Option<Handle>[MAX_HANDLES](_ => None);
      lastUsed := new int[MAX_HANDLES](_ => 0);
    }

    /** getFileState: the first match speaks for all of them. */
    method GetFileState(hostPath: string) returns (open: bool, ro: bool)
      requires Valid()
      ensures open == IsOpen(handles[..], hostPath) && ro == !IsWritten(handles[..], hostPath)
    {
      for i := 0 to handles.Length
        invariant forall j :: 0 <= j < i ==> !Names(handles[..], j, hostPath)
      {
        var f := handles[i];
        if f.Some? && f.value.FileHandle? && f.value.name == hostPath {
          assert Names(handles[..], i, hostPath);
          return true, f.value.readOnly;
        }
      }
      return false, true;
    }

    /** allocHandle: the handle number is the slot plus one. */
    method AllocHandle(h: Handle, now: int) returns (handle: int)
      requires Valid()
      requires Welcome(handles[..], h)
      modifies handles, lastUsed
      ensures Valid()
      ensures handle > 0 ==>
                && old(AllocatesAt(handles[..], lastUsed[..], now, handle - 1))
                && handles[..] == old(handles[..])[handle - 1 := Some(h)]
                && lastUsed[..] == old(lastUsed[..])[handle - 1 := now]
      ensures handle <= 0 ==>
                && handle == -EMFILE && handles[..] == old(handles[..]) && lastUsed[..] == old(lastUsed[..])
                && forall k :: 0 <= k < MAX_HANDLES ==> !AllocatesAt(handles[..], lastUsed[..], now, k)
    {
      var oldestHandle, oldestTimestamp := 0, now;
      for i := 0 to handles.Length
        invariant forall j :: 0 <= j < i ==> handles[j].Some?
        invariant oldestTimestamp <= now && 0 <= oldestHandle < handles.Length
        invariant forall j :: 0 <= j < i ==> oldestTimestamp <= lastUsed[j]
        invariant oldestTimestamp < now ==>
                    oldestHandle < i && oldestTimestamp == lastUsed[oldestHandle] &&
                    forall j :: 0 <= j < oldestHandle ==> oldestTimestamp < lastUsed[j]
      {
        if handles[i].None? {
          Store(i, h, now);
          return i + 1;
        }
        if lastUsed[i] < oldestTimestamp {
          oldestHandle, oldestTimestamp := i, lastUsed[i];
        }
      }
      if now - oldestTimestamp >= MAX_IDLE {
        Store(oldestHandle, h, now);
        return oldestHandle + 1;
      }
      return -EMFILE;
    }

    method Store(k: nat, h: Handle, now: int)
      requires Valid() && k < MAX_HANDLES
      requires Welcome(handles[..], h)
      modifies handles, lastUsed
      ensures Valid()
      ensures handles[..] == old(handles[..])[k := Some(h)] && lastUsed[..] == old(lastUsed[..])[k := now]
    {
      hide Shared;
      JoinKeepsShared(handles[..], k, h);
      ghost var before := handles[..];
      handles[k] := Some(h);
      lastUsed[k] := now;
      assert handles[..] == before[k := Some(h)];
    }

    /** freeHandle and Close; the block device stays open for the life of the server. */
    method FreeHandle(handle: int) returns (ok: bool)
      requires Valid() && 0 <= handle <= MAX_HANDLES
      modifies handles
      ensures Valid() && ok
      ensures handles[..] ==
              if handle == BLOCK_DEVICE_HANDLE then old(handles[..]) else old(handles[..])[handle - 1 := None]
    {
      hide Shared;
      if handle == BLOCK_DEVICE_HANDLE {
        return true;
      }
      var k := handle - 1;
      LeaveKeepsShared(handles[..], k);
      ghost var before := handles[..];
      if handles[k].Some? {
        handles[k] := None;
      }
      assert handles[..] == before[k := None];
      return true;
    }

    /** getFile: using a handle refreshes its timestamp; the block device has none. */
    method GetFile(handle: int, now: int) returns (f: Option<Handle>)
      requires Valid() && handle <= MAX_HANDLES
      modifies lastUsed
      ensures Valid()
      ensures f == if handle < 0 then None
                   else if handle == BLOCK_DEVICE_HANDLE then bdHandle
                   else if handles[handle - 1].None? || handles[handle - 1].value.DirHandle? then None
                   else handles[handle - 1]
      ensures lastUsed[..] == if handle > 0 && f.Some? then old(lastUsed[..])[handle - 1 := now] else old(lastUsed[..])
    {
      if handle < 0 {
        return None;
      }
      if handle == BLOCK_DEVICE_HANDLE {
        return bdHandle;
      }
      var k := handle - 1;
      f := handles[k];
      if f.None? || f.value.DirHandle? {
        return None;
      }
      ghost var before := lastUsed[..];
      lastUsed[k] := now;
      assert lastUsed[..] == before[k := now];
    }

    /**
     Open, after the path has been resolved to an absolute one (None if it leaves the root).
     A compressed image reports the empty name and is read-only.
     */
    method Open(fullPath: Option<string>, wantWrite: bool, isDir: bool, target: Target, now: int)
      returns (r: OpenResult)
      requires Valid() && fullPath != Some("")
      modifies handles, lastUsed
      ensures Valid()
      ensures fullPath.None? ==> r == NotFound
      ensures fullPath.Some? ==>
                (r == PermissionDenied <==>
                   if wantWrite then readOnly || old(IsOpen(handles[..], fullPath.value))
                   else old(IsWritten(handles[..], fullPath.value)))
      ensures !r.Opened? ==> handles[..] == old(handles[..]) && lastUsed[..] == old(lastUsed[..])
      ensures r == NoHandles ==>
                forall k :: 0 <= k < MAX_HANDLES ==> !old(AllocatesAt(handles[..], lastUsed[..], now, k))
      ensures fullPath.Some? && r != PermissionDenied ==>
                (r.Opened? || r == NoHandles <==>
                   if isDir then target.Directory? else !target.NoSuchFile? && !target.OsError?)
      ensures r.Opened? ==>
                && 1 <= r.handle <= MAX_HANDLES
                && old(AllocatesAt(handles[..], lastUsed[..], now, r.handle - 1))
                && handles[..] == old(handles[..])[r.handle - 1 := Some(
                     if isDir then DirHandle(fullPath.value)
                     else if target.CompressedImage? then FileHandle("", true)
                     else FileHandle(fullPath.value, !wantWrite))]
    {
      hide AllocatesAt;
      if fullPath.None? {
        return NotFound;
      }
      var path := fullPath.value;
      var open, fileReadOnly := GetFileState(path);
      var openForWriting := open && !fileReadOnly;
      if wantWrite && (readOnly || open) {
        return PermissionDenied;
      }
      if !wantWrite && openForWriting {
        WrittenIsOpen(handles[..], path);
        return PermissionDenied;
      }
      WrittenIsOpen(handles[..], path);
      var h: Handle;
      if isDir {
        if !target.Directory? {
          return Failed;
        }
        h := DirHandle(path);
      } else if target.CompressedImage? {
        h := FileHandle("", true);
      } else if target.NoSuchFile? {
        return NotFound;
      } else if target.OsError? {
        return Failed;
      } else {
        h := FileHandle(path, !wantWrite);
      }
      var handle := AllocHandle(h, now);
      if handle < 0 {
        return NoHandles;
      }
      return Opened(handle);
    }
  }

  lemma WrittenIsOpen(hs: Slots, name: string)
    ensures IsWritten(hs, name) ==> IsOpen(hs, name)
  {
  }
}

/**
 * The file-ownership table of libopkg/pkg_hash.c: which package owns each installed
 * file.  Every operation first strips the offline-root prefix from the file name, so
 * a name with and without that prefix address the same entry.  Moving a file to a
 * new owner takes it off the old owner's file list and marks both packages' file
 * lists as changed.
 */
module PkgHash {
  import opened Wrappers
  import opened CStrings
  import opened PkgState
  import opened Pkg

  /** strip_offline_root(): the name without the offline root when it starts with it, else the name itself. */
  function StripOfflineRoot(root: Option<string>, f: string): (r: string)
    ensures root.Some? && root.value <= f ==> root.value + r == f
    ensures !(root.Some? && root.value <= f) ==> r == f
  {
    if root.Some? && root.value <= f then f[|root.value|..] else f
  }

  /** A name without the offline-root prefix and the same name with it are one key. */
  lemma SameKey(root: Option<string>, f: string)
    requires root.Some? ==> !(root.value <= f)
    ensures root.Some? ==> StripOfflineRoot(root, root.value + f) == StripOfflineRoot(root, f) == f
    ensures root.None? ==> StripOfflineRoot(root, f) == f
  {
    if root.Some? {
      var r := root.value;
      assert r <= r + f;
      assert (r + f)[|r|..] == f;
    }
  }

  /** str_list_remove_elt() on a package's `installed_files`; nothing happens to a missing list. */
  method RemoveListedFile(p: Package, f: string)
    modifies p`installedFiles
    ensures p.installedFiles == if old(p.installedFiles).Some? then Some(RemoveFirst(old(p.installedFiles).value, f)) else None
    ensures p.installedFilesRefCnt == old(p.installedFilesRefCnt)
    ensures p.States() == old(p.States()) && p.localFilename == old(p.localFilename)
  {
    if p.installedFiles.Some? {
      p.installedFiles := Some(RemoveFirst(p.installedFiles.value, f));
    }
  }

  /** The old owner's file list after a transfer: `f` taken out of the list it holds; dropped when no one holds it. */
  function ListAfterTransfer(files: Option<seq<string>>, read: Option<seq<string>>, refCnt: int, f: string): Option<seq<string>> {
    if refCnt <= 0 then None
    else
      var l := if files.Some? then files else read;
      if l.Some? then Some(RemoveFirst(l.value, f)) else None
  }

  /** A flag word with SF_FILELIST_CHANGED set: marking twice is marking once, and every other bit is kept. */
  function MarkFileList(sf: Flags): (r: Flags)
    ensures r & SF_FILELIST_CHANGED == SF_FILELIST_CHANGED
    ensures r & !SF_FILELIST_CHANGED == sf & !SF_FILELIST_CHANGED
  {
    sf | SF_FILELIST_CHANGED
  }

  /** The global `file_hash` of opkg_config, with the configured offline root. */
  class FileHash {
    const offlineRoot: Option<string>
    var table: map<string, Package>

    constructor (offlineRoot: Option<string>)
      ensures this.offlineRoot == offlineRoot && table == map[]
    {
      this.offlineRoot := offlineRoot;
      table := map[];
    }

    /** The owner recorded for a file name. */
    function Owner(f: string): Option<Package>
      reads this
    {
      var key := StripOfflineRoot(offlineRoot, f);
      if key in table then Some(table[key]) else None
    }

    /** file_hash_get_file_owner(). */
    method GetFileOwner(f: string) returns (owner: Option<Package>)
      ensures owner == Owner(f)
      ensures owner.Some? ==> StripOfflineRoot(offlineRoot, f) in table
    {
      var key := StripOfflineRoot(offlineRoot, f);
      owner := if key in table then Some(table[key]) else None;
    }

    /** file_hash_remove(): the file has no owner afterwards; every other key keeps its owner. */
    method Remove(f: string)
      modifies this
      ensures table == old(table) - {StripOfflineRoot(offlineRoot, f)}
      ensures Owner(f) == None
      ensures forall g :: StripOfflineRoot(offlineRoot, g) != StripOfflineRoot(offlineRoot, f) ==> Owner(g) == old(Owner(g))
    {
      var key := StripOfflineRoot(offlineRoot, f);
      table := table - {key};
    }

    /**
     * file_hash_set_file_owner(): records `owner` for the file.  When the file had an
     * owner, it comes off that owner's file list (read through
     * pkg_get_installed_files(), with `read` what reading the list from disk gives) and
     * both packages get SF_FILELIST_CHANGED; without a previous owner neither package
     * changes.
     */
    method SetFileOwner(f: string, owner: Package, read: Option<seq<string>>)
      modifies this`table, owner`stateFlag, table.Values`stateFlag, table.Values`installedFiles,
               table.Values`installedFilesRefCnt
      ensures table == old(table)[StripOfflineRoot(offlineRoot, f) := owner]
      ensures Owner(f) == Some(owner)
      ensures forall g :: StripOfflineRoot(offlineRoot, g) != StripOfflineRoot(offlineRoot, f) ==> Owner(g) == old(Owner(g))
      ensures old(Owner(f)).Some? ==>
        var prev := old(Owner(f)).value;
        prev.stateFlag == MarkFileList(old(prev.stateFlag)) &&
        owner.stateFlag == MarkFileList(old(owner.stateFlag)) &&
        prev.installedFiles == ListAfterTransfer(old(prev.installedFiles), read, old(prev.installedFilesRefCnt),
                                                 StripOfflineRoot(offlineRoot, f)) &&
        prev.installedFilesRefCnt == old(prev.installedFilesRefCnt) &&
        prev.stateWant == old(prev.stateWant) && prev.stateStatus == old(prev.stateStatus)
      ensures old(Owner(f)).None? ==>
        owner.stateFlag == old(owner.stateFlag) && owner.installedFiles == old(owner.installedFiles) &&
        owner.installedFilesRefCnt == old(owner.installedFilesRefCnt)
      ensures forall p :: p in old(table.Values) && p != owner && Some(p) != old(Owner(f)) ==>
        p.stateFlag == old(p.stateFlag)
      ensures forall p :: (p in old(table.Values) || p == owner) && Some(p) != old(Owner(f)) ==>
        p.installedFiles == old(p.installedFiles) && p.installedFilesRefCnt == old(p.installedFilesRefCnt)
    {
      var key := StripOfflineRoot(offlineRoot, f);
      var prev := if key in table then Some(table[key]) else None;
      table := table[key := owner];
      if prev.Some? {
        Disown(prev.value, owner, key, read);
      }
    }
  }

  /**
   * The block of file_hash_set_file_owner() for a file that had an owner `prev`: the
   * file comes off `prev`'s list, and both packages get SF_FILELIST_CHANGED.
   */
  method Disown(prev: Package, owner: Package, key: string, read: Option<seq<string>>)
    modifies prev`installedFiles, prev`installedFilesRefCnt, prev`stateFlag, owner`stateFlag
    ensures prev.stateFlag == MarkFileList(old(prev.stateFlag))
    ensures owner.stateFlag == MarkFileList(old(owner.stateFlag))
    ensures prev.installedFiles == ListAfterTransfer(old(prev.installedFiles), read, old(prev.installedFilesRefCnt), key)
    ensures prev.installedFilesRefCnt == old(prev.installedFilesRefCnt)
    ensures prev != owner ==>
      owner.installedFiles == old(owner.installedFiles) && owner.installedFilesRefCnt == old(owner.installedFilesRefCnt)
  {
    var _ := prev.GetInstalledFiles(read);
    RemoveListedFile(prev, key);
    prev.FreeInstalledFiles();
    assert prev.stateFlag == old(prev.stateFlag);
    prev.stateFlag := MarkFileList(prev.stateFlag);
    owner.stateFlag := MarkFileList(owner.stateFlag);
  }

  /** Setting an owner and then asking for it, under either spelling of the name, gives that owner. */
  method SetThenGet(h: FileHash, f: string, owner: Package, read: Option<seq<string>>) returns (got: Option<Package>, gotRooted: Option<Package>)
    requires h.offlineRoot.Some? ==> !(h.offlineRoot.value <= f)
    modifies h, owner, h.table.Values
    ensures got == Some(owner) && gotRooted == Some(owner)
  {
    h.SetFileOwner(f, owner, read);
    got := h.GetFileOwner(f);
    SameKey(h.offlineRoot, f);
    if h.offlineRoot.Some? {
      gotRooted := h.GetFileOwner(h.offlineRoot.value + f);
    } else {
      gotRooted := h.GetFileOwner(f);
    }
  }

  /** A file removed from the table has no owner, under either spelling of its name. */
  method RemoveThenGet(h: FileHash, f: string) returns (got: Option<Package>, gotRooted: Option<Package>)
    requires h.offlineRoot.Some? ==> !(h.offlineRoot.value <= f)
    modifies h
    ensures got == None && gotRooted == None
  {
    h.Remove(f);
    got := h.GetFileOwner(f);
    SameKey(h.offlineRoot, f);
    if h.offlineRoot.Some? {
      gotRooted := h.GetFileOwner(h.offlineRoot.value + f);
    } else {
      gotRooted := h.GetFileOwner(f);
    }
  }
}

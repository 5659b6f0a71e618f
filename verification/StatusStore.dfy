/** The disk as the package lifecycle uses it: the text of the status file and the install
    roots that hold a payload. Every operation may fail. */
module StatusStore {
  import opened Wrappers
  import opened Lifecycle
  import opened StatusDb
  import StatusFile
  import StatusSettles
  import Text

  /** The text is a save of db. */
  ghost predicate Prints(text: string, db: InstalledDb) {
    exists order: seq<string> :: SavedIn(text, db, order)
  }

  ghost predicate SavedIn(text: string, db: InstalledDb, order: seq<string>) {
    StatusFile.Enumerates(order, db) && text == Text.Unlines(StatusFile.DbLines(db, order))
  }

  /** A saved database is read back unchanged exactly when it is storable, and a saved tame
      one is storable once it is read back. */
  lemma PrintsReads(text: string, db: InstalledDb)
    requires Prints(text, db)
    ensures StatusFile.Meaning(text) == db <==> StatusFile.Storable(db)
    ensures StatusSettles.TameDb(db) ==> StatusFile.Storable(StatusFile.Meaning(text))
  {
    hide StatusFile.Meaning, StatusFile.Storable, StatusSettles.TameDb;
    var order :| SavedIn(text, db, order);
    StatusSettles.LoadOfWrittenIff(db, order);
    if StatusSettles.TameDb(db) {
      StatusSettles.SavedSettles(db, order);
    }
  }

  /** What was loaded, less one entry, is storable once it has been saved. */
  lemma RemovalSettles(text: string, db: InstalledDb, n: string, later: string)
    requires db == StatusFile.Meaning(text) && (Prints(later, db - {n}) || Prints(later, db))
    ensures StatusFile.Storable(StatusFile.Meaning(later))
  {
    hide StatusFile.Meaning, StatusFile.Storable, StatusSettles.TamePackage;
    StatusSettles.LoadedIsTame(text);
    if Prints(later, db) {
      PrintsReads(later, db);
    } else {
      PrintsReads(later, db - {n});
    }
  }

  lemma StorableWithout(db: InstalledDb, n: string)
    requires StatusFile.Storable(db)
    ensures StatusFile.Storable(db - {n})
  {
    hide StatusFile.WellFormed;
  }

  /** What keeps a payload operation from clearing a root: an unreadable Termux manifest, a
      tree that cannot be deleted, payload files that cannot be unlinked, a fresh root whose
      mode cannot be set, or a rollback that is not tried. */
  datatype Fault = NoManifest | TreeStuck | FilesLeft | ModeNotSet | NotTried
  {
    /** The install root is still there. Single files are unlinked before the root goes. */
    predicate KeepsRoot() { !FilesLeft? }
  }

  /** `unseenLeft` is how many more times something will go wrong unnoticed, any finite number:
      a save whose end does not reach the disk, a read that shows only the start of the file, a
      stat that fails and makes an existing path look missing. A file that was never written
      reads as empty text. `failed` counts the operations that reported a failure. */
  class Store {
    var text: string
    var payloads: set<string>
    var unseenLeft: nat
    var failed: nat
    ghost var persisted: seq<InstalledDb>  // what every text written so far reads back as

    constructor (unseenLeft: nat)
      ensures text == "" && payloads == {} && this.unseenLeft == unseenLeft && failed == 0 && persisted == []
    {
      text, payloads, failed, persisted := "", {}, 0, [];
      this.unseenLeft := unseenLeft;
    }

    /** A step whose outcome only the system decides. */
    method Try() returns (ok: bool)
      modifies this`failed
      ensures failed == old(failed) + if ok then 0 else 1
    {
      ok := *;
      if !ok {
        failed := failed + 1;
      }
    }

    /** The database on disk. */
    function Status(): InstalledDb
      reads this`text
    {
      StatusFile.Meaning(text)
    }

    /** A file that cannot be opened is an error. A read error part-way is taken for the end of
        the file, and a failing stat for a missing file, which is an empty one. */
    method LoadStatus() returns (ok: bool, db: InstalledDb)
      modifies this`unseenLeft, this`failed
      ensures unseenLeft <= old(unseenLeft) && (ok && unseenLeft == old(unseenLeft) ==> db == Status())
      ensures failed == old(failed) + if ok then 0 else 1
    {
      var readable := Try();
      var shown, seen :| 0 <= shown <= |text| && seen == text[..shown];
      if unseenLeft > 0 && shown < |text| {
        unseenLeft := unseenLeft - 1;
      } else {
        seen := text;
      }
      ok, db := StatusFile.LoadStatusFile(if readable then StatusFile.Content(seen) else StatusFile.Unreadable);
    }

    /** Temporary file and rename: after a failure the old content is in place. A save whose
        last bytes are lost when the file is closed goes unnoticed. */
    method WriteStatus(db: InstalledDb) returns (ok: bool)
      modifies this`text, this`unseenLeft, this`failed, this`persisted
      ensures unseenLeft <= old(unseenLeft) && failed == old(failed) + if ok then 0 else 1
      ensures ok && unseenLeft == old(unseenLeft) ==> Prints(text, db)
      ensures ok ==> persisted == old(persisted) + [Status()]
      ensures !ok ==> text == old(text) && persisted == old(persisted) && unseenLeft == old(unseenLeft)
    {
      var content, order := StatusFile.WriteStatusFile(db);
      assert SavedIn(content, db, order);
      ok := Try();
      if ok {
        var cut :| 0 <= cut <= |content|;
        if unseenLeft > 0 && cut < |content| {
          content, unseenLeft := content[..cut], unseenLeft - 1;
        }
        text := content;
        persisted := persisted + [Status()];
      }
    }

    /** pathExists: a stat that fails for another reason makes the path look missing. */
    method PathExists(root: string) returns (there: bool)
      modifies this`unseenLeft
      ensures unseenLeft <= old(unseenLeft) && (there ==> root in payloads)
      ensures unseenLeft == old(unseenLeft) ==> there == (root in payloads)
    {
      there := root in payloads;
      var missed: bool := *;
      if there && missed && unseenLeft > 0 {
        there, unseenLeft := false, unseenLeft - 1;
      }
    }

    /** removeDirRecursive: it fails only while the root is still there. Whatever lies inside
        goes with it. */
    method RemoveTree(root: string) returns (gone: bool)
      modifies this`payloads, this`unseenLeft, this`failed
      ensures unseenLeft <= old(unseenLeft) && failed == old(failed) + if gone then 0 else 1
      ensures payloads == old(payloads) || payloads == Beside(old(payloads), root)
      ensures !gone ==> root in payloads && payloads == old(payloads)
      ensures gone && unseenLeft == old(unseenLeft) ==> root !in payloads
      ensures gone && unseenLeft == old(unseenLeft) && root in old(payloads) ==> payloads == Beside(old(payloads), root)
    {
      var there := PathExists(root);
      if !there {
        return true;
      }
      gone := Try();
      if gone {
        payloads := Beside(payloads, root);
      }
    }

    /** cleanupStaleTermuxInstallRoot: a root that no Termux record of the name claims goes. */
    method CleanStaleRoot(name: string, root: string) returns (cleaned: bool)
      modifies this`payloads, this`unseenLeft, this`failed
      ensures unseenLeft <= old(unseenLeft) && failed >= old(failed)
      ensures payloads == old(payloads) || payloads == Beside(old(payloads), root)
      ensures cleaned && unseenLeft == old(unseenLeft) ==> root !in payloads
    {
      var loaded, db := LoadStatus();
      if !loaded || (name in db && db[name].termuxPackage) {
        return false;
      }
      var _ := RemoveTree(root);
      var there := PathExists(root);
      cleaned := !there;
    }

    /** The Termux half of installSinglePackage. A package without files gets its root and an
        empty manifest; otherwise the tree is copied and the manifest written, and a failure
        is rolled back. Nothing clears a fresh root whose mode cannot be set. */
    method UnpackTermux(root: string) returns (ok: bool, fault: Option<Fault>)
      modifies this`payloads, this`unseenLeft, this`failed
      ensures unseenLeft <= old(unseenLeft) && failed >= old(failed) && Beside(payloads, root) == Beside(old(payloads), root)
      ensures payloads <= old(payloads) + {root}
      ensures ok ==> root in payloads && fault.None?
      ensures fault.Some? ==> (fault.value.TreeStuck? || fault.value.ModeNotSet?) && root in payloads
      ensures !ok ==> failed > old(failed)
      ensures !ok && fault.None? && unseenLeft == old(unseenLeft) ==> payloads <= old(payloads)
    {
      var layout: bool := *;
      fault := None;
      if layout {
        var prepared := Try();
        if !prepared {
          return false, None;
        }
        var _ := RemoveTree(root);
      } else {
        var empty := Try();  // a package that is neither laid out for Termux nor empty is refused
        if !empty {
          return false, None;
        }
      }
      var created := Try();
      if !created {
        return false, None;
      }
      payloads := payloads + {root};
      if !layout {
        var moded := Try();
        if !moded {
          return false, Some(ModeNotSet);
        }
      }
      var filled := Try();
      if !filled {
        var gone := RemoveTree(root);
        return false, if gone then None else Some(TreeStuck);
      }
      ok := true;
    }

    /** installSinglePackage: an existing root is an error unless it is stale Termux content
        or a reinstall was asked for. A root that a failed install leaves behind is one that
        could not be deleted, or whose mode could not be set. */
    method InstallPayload(name: string, root: string, termux: bool, reinstall: bool) returns (ok: bool, fault: Option<Fault>)
      modifies this`payloads, this`unseenLeft, this`failed
      ensures unseenLeft <= old(unseenLeft) && failed >= old(failed) && Beside(payloads, root) == Beside(old(payloads), root)
      ensures payloads <= old(payloads) + {root}
      ensures ok ==> root in payloads && fault.None?
      ensures fault.Some? ==> termux && (fault.value.TreeStuck? || fault.value.ModeNotSet?) && root in payloads
      ensures !ok ==> failed > old(failed) || (root in old(payloads) && root in payloads)
      ensures !ok && fault.None? && unseenLeft == old(unseenLeft) ==> payloads <= old(payloads)
    {
      fault := None;
      var unpacked := Try();
      if !unpacked {
        return false, None;
      }
      var there := PathExists(root);
      if there && !reinstall {
        var cleaned := false;
        if termux {
          cleaned := CleanStaleRoot(name, root);
        }
        if !cleaned {
          there := PathExists(root);
          if there {
            return false, None;
          }
        }
      } else if there {
        var _ := RemoveTree(root);
      }
      if termux {
        ok, fault := UnpackTermux(root);
        return ok, fault;
      }
      ok := Try();  // the unpacked tree is moved in place as a whole
      if ok {
        payloads := payloads + {root};
      }
    }

    /** removePackagePayload. A Termux removal needs its manifest, and fails if one of the
        listed files or the root stays; the root is deleted also when files stay. A Debian
        removal fails only while the root is there, and a missing tree is no error. */
    method RemovePayload(root: string, termux: bool) returns (ok: bool, fault: Option<Fault>)
      modifies this`payloads, this`unseenLeft, this`failed
      ensures unseenLeft <= old(unseenLeft) && failed >= old(failed) && ok == fault.None?
      ensures !ok ==> failed > old(failed) || root !in old(payloads) || unseenLeft < old(unseenLeft)
      ensures payloads == old(payloads) || payloads == Beside(old(payloads), root)
      ensures fault.Some? ==> if termux then fault.value.NoManifest? || fault.value.TreeStuck? || fault.value.FilesLeft?
                              else fault.value.TreeStuck?
      ensures fault == Some(TreeStuck) ==> root in payloads
      ensures fault == Some(NoManifest) ==> payloads == old(payloads)
      ensures fault == Some(FilesLeft) ==> root in old(payloads)
      ensures ok && termux ==> root in old(payloads)
      ensures (fault.None? || fault.value.FilesLeft?) && unseenLeft == old(unseenLeft) ==>
                root !in payloads && (root in old(payloads) ==> payloads == Beside(old(payloads), root))
    {
      if termux {
        var readable := Try();
        if !readable || root !in payloads {
          return false, Some(NoManifest);
        }
        var unlinked := Try();
        var gone := RemoveTree(root);
        if !gone {
          return false, Some(TreeStuck);
        }
        return unlinked, if unlinked then None else Some(FilesLeft);
      }
      var there := PathExists(root);
      if !there {
        return true, None;
      }
      var gone := RemoveTree(root);
      if gone {
        there := PathExists(root);
        if !there {
          return true, None;
        }
      }
      return false, Some(TreeStuck);
    }
  }
}

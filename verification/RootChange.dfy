/** Whether a transaction touched a directory of the root, told from its undo log alone; this is
    how the boot protocol learns that the kernels changed. */
module RootChange {
  import opened Domain
  import opened Text
  import opened UndoLog

  predicate Under(p: Path, prefix: string) {
    prefix <= p
  }

  ghost predicate Touches(log: Log, prefix: string) {
    || (exists p :: p in log.backup && Under(p, prefix))
    || (exists l :: l in Lines(log.added) && Under(l, prefix))
  }

  /** `salt_deploy_root_changed`. */
  method RootChanged(log: Log, prefix: string) returns (changed: bool)
    ensures changed <==> Touches(log, prefix)
  {
    changed := exists p :: p in log.backup && Under(p, prefix);
    var rest := log.added;
    while !changed && rest != ""
      invariant changed ==> Touches(log, prefix)
      invariant !changed ==> (Touches(log, prefix) <==> exists l :: l in Lines(rest) && Under(l, prefix))
      decreases |rest|, !changed
    {
      var nl := 0;
      while nl < |rest| && rest[nl] != '\n'
        invariant 0 <= nl <= |rest|
        invariant NewlineFree(rest[..nl])
      {
        nl := nl + 1;
      }
      LinesFirst(rest, nl);
      if Under(rest[..nl], prefix) {
        changed := true;
        assert rest[..nl] in Lines(rest);
      } else {
        rest := if nl < |rest| then rest[nl + 1..] else "";
      }
    }
  }

  /** When the log of a transaction restores the files it found and does not touch a directory,
      the transaction left every file under that directory as it was. */
  lemma {:induction false} UntouchedRootIsUnchanged(orig: Files, files: Files, log: Log, prefix: string, p: Path)
    requires Revert(log, files) == orig && !Touches(log, prefix) && Under(p, prefix)
    ensures Same(orig, files, p)
  {
    assert p !in log.backup && p !in Listed(log.added);
  }

  // ----- kernels -----

  /** `kernel_name_ok`. */
  predicate KernelName(n: string) {
    && !(|n| > 4 && (n[|n| - 4..] == ".img" || n[|n| - 4..] == ".old"))
    && !(exists i :: 0 <= i <= |n| && "initr" <= n[i..])
    && exists prefix :: prefix in {"vmlinuz", "vmlinux", "bzImage", "Image"}
                        && prefix <= n && (|n| == |prefix| || n[|prefix|] == '-')
  }

  const BOOT := "boot/"

  /** How the kernel spells, as a path below the root, what a link at a path points to. */
  type Resolver = (Path, string) -> Path

  /** The links a lookup follows before it gives up. */
  const MAX_LINKS := 40

  /** `stat` finds a regular file, following at most `hops` links. */
  predicate IsFile(files: Files, follow: Resolver, p: Path, hops: nat)
    decreases hops
  {
    p in files
    && match files[p]
       case Regular(_) => true
       case Symlink(target) => hops > 0 && IsFile(files, follow, follow(p, target), hops - 1)
  }

  /** The kernels `salt_boot_list_kernels` finds. */
  function Kernels(files: Files, follow: Resolver): set<string> {
    set p | p in files && Under(p, BOOT) && KernelName(p[|BOOT|..])
        && IsFile(files, follow, p, MAX_LINKS) :: p[|BOOT|..]
  }

  /** No link under `/boot` points out of it. */
  ghost predicate LinksStayInside(files: Files, follow: Resolver) {
    forall p :: p in files && Under(p, BOOT) && files[p].Symlink? ==> Under(follow(p, files[p].target), BOOT)
  }

  lemma {:induction false} SameFileFound(a: Files, b: Files, follow: Resolver, p: Path, hops: nat)
    requires forall q :: Under(q, BOOT) ==> Same(a, b, q)
    requires LinksStayInside(a, follow) && Under(p, BOOT)
    ensures IsFile(a, follow, p, hops) <==> IsFile(b, follow, p, hops)
    decreases hops
  {
    assert Same(a, b, p);
    if p in a && a[p].Symlink? && hops > 0 {
      SameFileFound(a, b, follow, follow(p, a[p].target), hops - 1);
    }
  }

  lemma {:induction false} SameKernels(a: Files, b: Files, follow: Resolver)
    requires forall p :: Under(p, BOOT) ==> Same(a, b, p)
    requires LinksStayInside(a, follow)
    ensures Kernels(a, follow) == Kernels(b, follow)
  {
    hide KernelName, IsFile;
    forall p | Under(p, BOOT)
      ensures p in a <==> p in b
      ensures IsFile(a, follow, p, MAX_LINKS) <==> IsFile(b, follow, p, MAX_LINKS)
    {
      assert Same(a, b, p);
      SameFileFound(a, b, follow, p, MAX_LINKS);
    }
  }

  /** A transaction that changed the set of kernels is noticed, as long as no link leads out of
      `/boot`. */
  lemma {:induction false} KernelChangeIsNoticed(orig: Files, files: Files, log: Log, follow: Resolver)
    requires Revert(log, files) == orig && LinksStayInside(orig, follow)
    ensures Kernels(files, follow) != Kernels(orig, follow) ==> Touches(log, BOOT)
  {
    hide Kernels;
    if !Touches(log, BOOT) {
      forall p | Under(p, BOOT)
        ensures Same(orig, files, p)
      {
        UntouchedRootIsUnchanged(orig, files, log, BOOT, p);
      }
      SameKernels(orig, files, follow);
    }
  }

  /** A link that leads out: removing what it points to takes a kernel away unnoticed. */
  lemma {:induction false} OutsideKernelGoesUnnoticed(content: Content, follow: Resolver)
    requires content.Regular? && follow("boot/Image", "/k") == "k"
    ensures var link := Symlink("/k");
            var orig, files := map["boot/Image" := link, "k" := content], map["boot/Image" := link];
            var log := Log(map["k" := content], "", None);
            && Revert(log, files) == orig && !Touches(log, BOOT)
            && "Image" in Kernels(orig, follow) && "Image" !in Kernels(files, follow)
  {
    hide KernelName;
    var link, p, q := Symlink("/k"), "boot/Image", "k";
    var orig, files := map[p := link, q := content], map[p := link];
    var log := Log(map[q := content], "", None);
    assert q != p && |q| < |BOOT|;
    assert Listed("") == {};
    assert Revert(log, files) == orig;
    assert p[..5] == BOOT && p[5..] == "Image";
    ImageIsKernel();
    assert IsFile(orig, follow, p, MAX_LINKS);
    assert !IsFile(files, follow, p, MAX_LINKS);
    assert forall r :: r in files && Under(r, BOOT) ==> r == p;
  }

  lemma {:induction false} ImageIsKernel()
    ensures KernelName("Image")
  {
    var n := "Image";
    assert n[|n| - 4..][0] == 'm';
    assert forall i :: 0 <= i <= |n| && "initr" <= n[i..] ==> n[i..][0] == 'i' && |n[i..]| >= 5;
    assert n[0..][0] == 'I';
    assert "Image" in {"vmlinuz", "vmlinux", "bzImage", "Image"} && "Image" <= n;
  }
}

/** The boot commands as they run: a machine whose environment block, `/boot` and running kernel
    change step by step, each command proved against the protocol's transition function. */
module Loader {
  import opened Domain
  import opened Text
  import opened Repo
  import opened GrubEnv
  import opened Boot

  class Machine {
    /** The bytes of the environment block. */
    var block: string
    var kernels: set<string>
    var running: string

    /** File names in `/boot` are single lines. */
    ghost predicate Valid()
      reads this
    {
      forall k :: k in kernels ==> NewlineFree(k)
    }

    ghost function State(): Boot
      reads this
    {
      Boot(ReadLines(Lines(block)), kernels, running)
    }

    constructor (block: string, kernels: set<string>, running: string)
      requires forall k :: k in kernels ==> NewlineFree(k)
      ensures Valid() && State() == Boot(ReadLines(Lines(block)), kernels, running)
    {
      this.block := block;
      this.kernels := kernels;
      this.running := running;
    }

    /** Write the configuration and the block; `io` says whether the writes succeed. */
    method WriteBlock(def: string, armed: bool, pending: string, io: bool)
      requires NewlineFree(def) && NewlineFree(pending)
      modifies this`block
      ensures State() == WriteEnv(old(State()), def, armed, pending, io)
    {
      hide Block, FullText, EnvEntries, MakeEnv, Lines, ReadLines;
      if io {
        var written := Write(EnvEntries(def, armed, pending));
        if written.Some? {
          WrittenEnvReadsBack(def, armed, pending);
          block := written.value;
        }
      }
    }

    /** `grub_state`: the default and pending kernels whose files exist, and the trial flag. */
    method GrubState() returns (def: string, pending: string, armed: bool)
      requires Valid()
      ensures def == Present(kernels, Default(State().env)) && NewlineFree(def)
      ensures pending == Present(kernels, Pending(State().env)) && NewlineFree(pending)
      ensures armed == TrySet(State().env)
    {
      hide Lines, ReadLines;
      var env := Read(block);
      def := KernelFromEntry(if "saltos_default" in env then env["saltos_default"] else "");
      pending := if "saltos_pending" in env then env["saltos_pending"] else "";
      armed := "saltos_try" in env && env["saltos_try"] == "1";
      if def != "" && def !in kernels {
        def := "";
      }
      if pending != "" && pending !in kernels {
        pending := "";
      }
    }

    /** `running_kernel`. */
    method RunningFile() returns (k: string)
      requires Valid()
      ensures k == RunningKernel(kernels, running) && NewlineFree(k)
    {
      k := FindNewest(SameRelease(kernels, running));
    }

    method GrubUpdate(afterRollback: bool, rearm: bool, io: bool)
      requires Valid()
      modifies this`block
      ensures State() == Update(old(State()), afterRollback, rearm, io)
    {
      hide NewestKernel, RunningKernel, WriteEnv, Default, Pending, TrySet, Present;
      if kernels == {} {
        return;
      }
      var newest := FindNewest(kernels);
      var current, waiting, flag := GrubState();
      var running := RunningFile();
      var def := current;
      if afterRollback {
        def := newest;
      } else if def == "" {
        def := if running == "" then newest else running;
      }
      var pending, armed := "", false;
      if afterRollback {
      } else if rearm {
        if newest != def {
          pending, armed := newest, true;
        }
      } else {
        pending, armed := waiting, flag;
      }
      WriteBlock(def, armed, pending, io);
    }

    method GrubTry(io: bool)
      requires Valid()
      modifies this`block
      ensures State() == Try(old(State()), io)
    {
      hide NewestKernel, WriteEnv, Default, Pending, TrySet, Present;
      var def, _, _ := GrubState();
      var newest := FindNewest(kernels);
      if newest == "" || newest == def {
        return;
      }
      WriteBlock(if def == "" then newest else def, true, newest, io);
    }

    method GrubConfirm(io: bool)
      requires Valid()
      modifies this`block
      ensures State() == Confirm(old(State()), io)
    {
      hide NewestKernel, RunningKernel, WriteEnv, Default, Pending, TrySet, Present;
      var def, pending, armed := GrubState();
      if pending == "" {
        return;
      }
      var running := RunningFile();
      if running != pending {
        if !armed {
          WriteBlock(def, false, "", io);
        }
        return;
      }
      WriteBlock(running, false, "", io);
    }

    /** `retain_running_kernel`; `before` holds the kernels the transaction found. */
    method RetainRunning(before: set<string>)
      requires Valid() && forall k :: k in before ==> NewlineFree(k)
      modifies this`kernels
      ensures Valid()
      ensures kernels == old(kernels) + Retained(before, old(kernels), running)
    {
      hide OldestKernel, KernelRelease;
      if SameRelease(kernels, running) != {} {
        return;
      }
      var lost := SameRelease(before - kernels, running);
      if lost == {} {
        return;
      }
      var last := FindOldest(lost);
      kernels := kernels + {last};
    }

    /** `drop_stale_kernels`; `owned` holds the kernels that a package owns. */
    method DropStale(owned: set<string>)
      requires Valid()
      modifies this`kernels
      ensures Valid()
      ensures kernels == Fresh(old(State()), owned)
    {
      hide NewestKernel, RunningKernel, Default, Pending, Present, KernelRelease, InUse;
      var def, pending, _ := GrubState();
      var running := RunningFile();
      var newest := FindNewest(kernels);
      ghost var was := State();
      var listed := kernels;
      while listed != {}
        invariant listed <= was.kernels
        invariant forall k :: k in kernels <==> k in was.kernels && (k in listed || InUse(was, owned, k))
        decreases |listed|
      {
        var k :| k in listed;
        PassedOver(was, owned, k);
        if !(k == running || k == newest || k == def || k == pending || k in owned) {
          kernels := kernels - {k};
        }
        listed := listed - {k};
      }
    }

    /** `deploy_post_txn`, after a transaction found the kernels `before`. */
    method AfterTransaction(before: set<string>, owned: set<string>, bootChanged: bool, io: bool)
      requires Valid() && forall k :: k in before ==> NewlineFree(k)
      modifies this`kernels, this`block
      ensures State() == PostTransaction(old(State()).(kernels := before), old(kernels), owned, bootChanged, io)
    {
      hide Update, Retained, Fresh, InUse;
      if bootChanged {
        RetainRunning(before);
        DropStale(owned);
      }
      GrubUpdate(false, bootChanged, io);
    }
  }

  lemma {:induction false} PassedOver(b: Boot, owned: set<string>, k: string)
    ensures InUse(b, owned, k) <==>
            (|| k == RunningKernel(b.kernels, b.running) || k == NewestKernel(b.kernels)
             || k == Present(b.kernels, Default(b.env)) || k == Present(b.kernels, Pending(b.env)) || k in owned)
  {
  }
}

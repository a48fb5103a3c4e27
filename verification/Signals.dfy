/** Dispositions and the signal mask: sigaction, signal and sigprocmask over the kernel's tables. */
module Signals {
  import opened MachineWords
  import opened WordMemory
  import opened SignalWords
  import opened NonLocalJump
  import opened SignalSets

  const SIG_ERR := -1
  const SA_RESTORER: bv32 := 0x0400_0000
  const SA_RESTART: bv32 := 0x1000_0000

  /** The address of the library's signal return stub. */
  const SIGRETURN := 0x1000

  datatype Option<T> = None | Some(value: T)

  /** A disposition; the library's and the kernel's structures have the same four parts. */
  datatype Action = Action(handler: int, mask: SigSet, flags: bv32, restorer: int)

  function AddRestorer(flags: bv32): bv32 {
    flags | SA_RESTORER
  }

  lemma RestorerStays(flags: bv32)
    ensures AddRestorer(AddRestorer(flags)) == AddRestorer(flags)
  {
  }

  /** One bit is set, and every other bit of the caller's flags is kept. */
  lemma RestorerBits(flags: bv32)
    ensures AddRestorer(flags) & SA_RESTORER == SA_RESTORER
    ensures AddRestorer(flags) & !SA_RESTORER == flags & !SA_RESTORER
  {
  }

  lemma RestartStays()
    ensures AddRestorer(SA_RESTART) & SA_RESTART == SA_RESTART
  {
  }

  /** What the kernel ends up with when the library installs `a`. */
  function Installed(a: Action): Action {
    Action(a.handler, a.mask - UNBLOCKABLE, AddRestorer(a.flags), SIGRETURN)
  }

  /** A disposition the library can have put there. */
  predicate LibraryMade(k: Action) {
    AddRestorer(k.flags) == k.flags && k.restorer == SIGRETURN && k.mask !! UNBLOCKABLE
  }

  lemma InstalledSame(k: Action)
    ensures Installed(k) == k <==> LibraryMade(k)
  {
  }

  /** Exactly the dispositions the library makes come out of it again. */
  lemma LibraryMadeExactly(k: Action)
    ensures LibraryMade(k) <==> exists a :: Installed(a) == k
  {
    InstalledSame(k);
    if a :| Installed(a) == k { RestorerStays(a.flags); }
  }

  /** A known `how` of sigprocmask. */
  predicate Known(how: Word) {
    how == SIG_BLOCK || how == SIG_UNBLOCK || how == SIG_SETMASK
  }

  /** A masked section: change the mask, do what is inside, put the saved mask back. */
  datatype Section = Section(how: Word, sigs: SigSet, inner: Inner)
  datatype Inner = Done | Then(section: Section, next: Inner) | Change(how: Word, sigs: SigSet, next: Inner)

  class Process {
    var errno: int
    var actions: map<int, Action>
    var mask: SigSet
    /** The mask after each call of sigprocmask so far. */
    ghost var masks: seq<SigSet>

    /** Every signal number has a disposition, and the kernel never lets KILL and STOP be blocked. */
    predicate Valid()
      reads this
    {
      (forall s: int :: 1 <= s <= 64 ==> s in actions) && mask !! UNBLOCKABLE
    }

    method SysRtSigaction(signum: int, act: Action) returns (ret: int, oact: Action)
      requires Valid() && 1 <= signum < NSIG
      modifies this`actions
      ensures Valid()
      ensures signum in UNBLOCKABLE ==> ret == -EINVAL && actions == old(actions)
      ensures signum !in UNBLOCKABLE ==>
        && ret == 0 && oact == old(actions)[signum]
        && actions == old(actions)[signum := act.(mask := act.mask - UNBLOCKABLE)]
    {
      oact := actions[signum];
      if signum == SIGKILL || signum == SIGSTOP { return -EINVAL, oact; }
      actions := actions[signum := act.(mask := act.mask - UNBLOCKABLE)];
      return 0, oact;
    }

    /** `junk` is what the uninitialised kernel structure happens to hold. */
    method SigAction(signum: int, act: Option<Action>, junk: Action) returns (ret: int, oldact: Option<Action>)
      requires Valid()
      modifies this`errno, this`actions
      ensures Valid()
      ensures !(1 <= signum < NSIG) || signum in UNBLOCKABLE ==>
        ret == -1 && oldact == None && errno == EINVAL && actions == old(actions)
      ensures 1 <= signum < NSIG && signum !in UNBLOCKABLE ==>
        && ret == 0 && errno == 0 && oldact == Some(old(actions)[signum])
        && actions == old(actions)[signum :=
             if act.Some? then Installed(act.value) else junk.(mask := junk.mask - UNBLOCKABLE)]
      ensures forall s | s != signum && s in old(actions) :: s in actions && actions[s] == old(actions)[s]
      ensures 1 <= signum < NSIG && signum !in UNBLOCKABLE && act.Some? ==>
        var now, a := actions[signum], act.value;
        && now.handler == a.handler && now.restorer == SIGRETURN
        && (forall s :: s in now.mask <==> s in a.mask && s != SIGKILL && s != SIGSTOP)
        && now.flags & SA_RESTORER == SA_RESTORER && now.flags & !SA_RESTORER == a.flags & !SA_RESTORER
    {
      oldact := None;
      if signum <= 0 || signum >= NSIG {
        errno := EINVAL;
        return -1, None;
      }
      var kact := junk;
      if act.Some? {
        RestorerBits(act.value.flags);
        kact := Action(act.value.handler, act.value.mask, AddRestorer(act.value.flags), SIGRETURN);
      }
      var koact: Action;
      ret, koact := SysRtSigaction(signum, kact);
      if ret >= 0 { oldact := Some(koact); }
      errno := 0;
      if ret < 0 {
        errno := -ret;
        ret := -1;
      }
    }

    method Signal(signum: int, handler: int) returns (was: int)
      requires Valid()
      modifies this`errno, this`actions
      ensures Valid()
      ensures handler == SIG_ERR || !(1 <= signum < NSIG) || signum in UNBLOCKABLE ==>
        was == SIG_ERR && errno == EINVAL && actions == old(actions)
      ensures handler != SIG_ERR && 1 <= signum < NSIG && signum !in UNBLOCKABLE ==>
        && was == old(actions)[signum].handler && errno == 0
        && actions == old(actions)[signum := Installed(Action(handler, {signum}, SA_RESTART, 0))]
      ensures forall s | s != signum && s in old(actions) :: s in actions && actions[s] == old(actions)[s]
      ensures handler != SIG_ERR && 1 <= signum < NSIG && signum !in UNBLOCKABLE ==>
        var now := actions[signum];
        && now.handler == handler && now.mask == {signum} && now.restorer == SIGRETURN
        && now.flags & SA_RESTART == SA_RESTART && now.flags & SA_RESTORER == SA_RESTORER
        && now.flags & !SA_RESTORER == SA_RESTART & !SA_RESTORER
    {
      if handler == SIG_ERR || signum <= 0 || signum >= NSIG {
        errno := EINVAL;
        return SIG_ERR;
      }
      RestartStays();
      var garbage: Action := Action(0, {}, 0, 0);
      var act := Action(handler, {signum}, SA_RESTART, 0);
      var ret, oldact := SigAction(signum, Some(act), garbage);
      if ret < 0 { return SIG_ERR; }
      return oldact.value.handler;
    }

    /** Installing a disposition and then what came back restores the table exactly if the
        library had made the old disposition; handler and mask come back in any case. */
    method Exchange(signum: int, act: Action, junk: Action)
      requires Valid() && 1 <= signum < NSIG && signum !in UNBLOCKABLE
      modifies this`errno, this`actions
      ensures Valid()
      ensures actions == old(actions) <==> LibraryMade(old(actions)[signum])
      ensures actions[signum].handler == old(actions)[signum].handler
      ensures actions[signum].mask == old(actions)[signum].mask - UNBLOCKABLE
    {
      var ret, oldact := SigAction(signum, Some(act), junk);
      ret, oldact := SigAction(signum, oldact, junk);
      assert actions == old(actions)[signum := Installed(old(actions)[signum])];
      InstalledSame(old(actions)[signum]);
      assert actions[signum] == Installed(old(actions)[signum]);
    }

    /** `signal(s, signal(s, h))` brings the old handler back exactly if it is one `signal` takes. */
    method SignalTwice(signum: int, handler: int)
      requires Valid() && handler != SIG_ERR && 1 <= signum < NSIG && signum !in UNBLOCKABLE
      modifies this`errno, this`actions
      ensures Valid()
      ensures actions[signum].handler == old(actions)[signum].handler <==> old(actions)[signum].handler != SIG_ERR
    {
      var was := Signal(signum, handler);
      var _ := Signal(signum, was);
    }

    method SysRtSigprocmask(how: Word, nset: Option<SigSet>) returns (ret: int, oset: SigSet)
      requires Valid()
      modifies this`mask, this`masks
      ensures Valid() && oset == old(mask) && masks == old(masks) + [mask]
      ensures nset.Some? && !Known(how) ==> ret == -EINVAL && mask == old(mask)
      ensures !(nset.Some? && !Known(how)) ==>
        ret == 0 && mask == if nset.None? then old(mask) else Masked(how, old(mask), nset.value)
    {
      oset := mask;
      if nset.Some? {
        if !Known(how) {
          masks := masks + [mask];
          return -EINVAL, oset;
        }
        mask := Masked(how, mask, nset.value);
      }
      masks := masks + [mask];
      return 0, oset;
    }

    method SigProcMask(how: Word, nset: Option<SigSet>) returns (ret: int, oldset: SigSet)
      requires Valid()
      modifies this`errno, this`mask, this`masks
      ensures Valid() && oldset == old(mask) && actions == old(actions) && masks == old(masks) + [mask]
      ensures nset.Some? && !Known(how) ==> ret == -1 && errno == EINVAL && mask == old(mask)
      ensures !(nset.Some? && !Known(how)) ==>
        ret == 0 && errno == 0 && mask == if nset.None? then old(mask) else Masked(how, old(mask), nset.value)
      ensures nset.Some? && how == SIG_BLOCK ==>
        forall s :: s in mask <==> s in old(mask) || (s in nset.value && s != SIGKILL && s != SIGSTOP)
      ensures nset.Some? && how == SIG_UNBLOCK ==> forall s :: s in mask <==> s in old(mask) && s !in nset.value
      ensures nset.Some? && how == SIG_SETMASK ==>
        forall s :: s in mask <==> s in nset.value && s != SIGKILL && s != SIGSTOP
    {
      ret, oldset := SysRtSigprocmask(how, nset);
      errno := 0;
      if ret < 0 {
        errno := -ret;
        ret := -1;
      }
    }

    /** Sections of any depth, with unbracketed changes inside them, leave the mask as it was; in
        between it is what each section asks for. */
    method RunSection(s: Section)
      requires Valid()
      modifies this`errno, this`mask, this`masks
      ensures Valid() && mask == old(mask)
      ensures masks == old(masks) + SectionMasks(s, old(mask))
      ensures |masks| >= |old(masks)| + 2 && masks[..|old(masks)|] == old(masks) && masks[|masks| - 1] == mask
      ensures masks[|old(masks)|] == if Known(s.how) then Masked(s.how, old(mask), s.sigs) else old(mask)
      decreases s
    {
      var _, saved := SigProcMask(s.how, Some(s.sigs));
      RunInner(s.inner);
      var _, _ := SigProcMask(SIG_SETMASK, Some(saved));
    }

    method RunInner(inner: Inner)
      requires Valid()
      modifies this`errno, this`mask, this`masks
      ensures Valid() && (NoChanges(inner) ==> mask == old(mask))
      ensures mask == MaskAfter(inner, old(mask)) && masks == old(masks) + InnerMasks(inner, old(mask))
      decreases inner
    {
      match inner {
        case Done =>
        case Then(s, next) =>
          RunSection(s);
          RunInner(next);
        case Change(how, sigs, next) =>
          var _, _ := SigProcMask(how, Some(sigs));
          RunInner(next);
      }
    }
  }

  /** The mask once `how` has been asked for. */
  function Changed(how: Word, mask: SigSet, sigs: SigSet): SigSet {
    if Known(how) then Masked(how, mask, sigs) else mask
  }

  /** The masks set one after the other: on entry, by what is inside, and back again. */
  function SectionMasks(s: Section, mask: SigSet): seq<SigSet>
    decreases s
  {
    var inside := Changed(s.how, mask, s.sigs);
    [inside] + InnerMasks(s.inner, inside) + [mask]
  }

  function InnerMasks(inner: Inner, mask: SigSet): seq<SigSet>
    decreases inner
  {
    match inner
    case Done => []
    case Then(s, next) => SectionMasks(s, mask) + InnerMasks(next, mask)
    case Change(how, sigs, next) =>
      [Changed(how, mask, sigs)] + InnerMasks(next, Changed(how, mask, sigs))
  }

  function MaskAfter(inner: Inner, mask: SigSet): SigSet {
    match inner
    case Done => mask
    case Then(_, next) => MaskAfter(next, mask)
    case Change(how, sigs, next) => MaskAfter(next, Changed(how, mask, sigs))
  }

  predicate NoChanges(inner: Inner) {
    match inner
    case Done => true
    case Then(_, next) => NoChanges(next)
    case Change(_, _, _) => false
  }
}

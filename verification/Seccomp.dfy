/** apply_seccomp: compile a list of denied system calls to a classic BPF program, and what
    the kernel makes of that program. */
module Seccomp {
  import opened Options

  /** One instruction. Jump offsets count from the next instruction. */
  datatype Insn = Insn(code: nat, jt: nat, jf: nat, k: nat)

  /** The part of struct seccomp_data the filter looks at. */
  datatype Call = Call(nr: nat, arch: nat)

  const LD_W_ABS: nat := 0x20
  const JMP_JEQ_K: nat := 0x15
  const RET_K: nat := 0x06

  const RET_ALLOW: nat := 0x7fff_0000
  const RET_ERRNO: nat := 0x0005_0000
  const RET_KILL_PROCESS: nat := 0x8000_0000
  const EPERM: nat := 1

  const SD_NR: nat := 0
  const SD_ARCH: nat := 4

  const TWO_32: nat := 0x1_0000_0000
  /** Longest program the kernel takes. */
  const BPF_MAXINSNS: nat := 4096

  /** The cast of a system call number to uint32_t. */
  function U32(x: int): nat {
    x % TWO_32
  }

  // ---- the machine ----

  /** Run prog from pc with accumulator acc. None: the program runs off its end or reads a
      word the filter data does not have. */
  function Exec(prog: seq<Insn>, call: Call, pc: nat, acc: nat): Option<nat>
    decreases |prog| - pc
  {
    if pc >= |prog| then None
    else
      var i := prog[pc];
      if i.code == RET_K then Some(i.k)
      else if i.code == LD_W_ABS then
        if i.k == SD_NR then Exec(prog, call, pc + 1, call.nr)
        else if i.k == SD_ARCH then Exec(prog, call, pc + 1, call.arch)
        else None
      else if i.code == JMP_JEQ_K then
        Exec(prog, call, pc + 1 + (if acc == i.k then i.jt else i.jf), acc)
      else None
  }

  predicate IsReturn(i: Insn) {
    i.code == RET_K
  }

  /** An instruction the kernel admits at position pc of a program of n. */
  predicate InsnOk(i: Insn, pc: nat, n: nat) {
    || IsReturn(i)
    || (i.code == LD_W_ABS && (i.k == SD_NR || i.k == SD_ARCH))
    || (i.code == JMP_JEQ_K && pc + 1 + i.jt < n && pc + 1 + i.jf < n)
  }

  /** What the kernel checks before it installs a program. */
  predicate Accepted(prog: seq<Insn>) {
    && 1 <= |prog| <= BPF_MAXINSNS
    && IsReturn(prog[|prog| - 1])
    && forall pc :: 0 <= pc < |prog| ==> InsnOk(prog[pc], pc, |prog|)
  }

  /** An accepted program always ends at a return, from wherever it runs. */
  lemma {:induction false} AcceptedReturns(prog: seq<Insn>, call: Call, pc: nat, acc: nat)
    requires Accepted(prog) && pc < |prog|
    ensures Exec(prog, call, pc, acc).Some?
    decreases |prog| - pc
  {
    var i := prog[pc];
    assert InsnOk(i, pc, |prog|);
    if i.code == LD_W_ABS {
      assert pc != |prog| - 1;
      AcceptedReturns(prog, call, pc + 1, if i.k == SD_NR then call.nr else call.arch);
    } else if i.code == JMP_JEQ_K {
      AcceptedReturns(prog, call, pc + 1 + (if acc == i.k then i.jt else i.jf), acc);
    }
  }

  // ---- the filter ----

  function Prologue(arch: nat): seq<Insn> {
    [Insn(LD_W_ABS, 0, 0, SD_ARCH),
     Insn(JMP_JEQ_K, 1, 0, arch),
     Insn(RET_K, 0, 0, RET_KILL_PROCESS),
     Insn(LD_W_ABS, 0, 0, SD_NR)]
  }

  function DenyOne(nr: int): seq<Insn> {
    [Insn(JMP_JEQ_K, 0, 1, U32(nr)), Insn(RET_K, 0, 0, RET_ERRNO + EPERM)]
  }

  function DenyAll(denied: seq<int>): (p: seq<Insn>)
    ensures |p| == 2 * |denied|
  {
    if denied == [] then [] else DenyAll(denied[..|denied| - 1]) + DenyOne(denied[|denied| - 1])
  }

  /** The whole program for a denylist. */
  function Filter(arch: nat, denied: seq<int>): (p: seq<Insn>)
    ensures |p| == 5 + 2 * |denied|
  {
    Prologue(arch) + DenyAll(denied) + [Insn(RET_K, 0, 0, RET_ALLOW)]
  }

  /** What the source's comments ask of the filter. */
  function Wanted(arch: nat, denied: seq<int>, call: Call): nat {
    if call.arch != arch then RET_KILL_PROCESS
    else if exists d :: d in denied && U32(d) == call.nr then RET_ERRNO + EPERM
    else RET_ALLOW
  }

  lemma {:induction false} DenyAt(denied: seq<int>, d: nat)
    requires d < |denied|
    ensures DenyAll(denied)[2 * d] == DenyOne(denied[d])[0]
    ensures DenyAll(denied)[2 * d + 1] == DenyOne(denied[d])[1]
  {
    if d < |denied| - 1 {
      DenyAt(denied[..|denied| - 1], d);
    }
  }

  /** From the d-th test on, with the call number loaded, the program denies exactly the
      numbers still to be tested. */
  lemma {:induction false} DenyRuns(arch: nat, denied: seq<int>, d: nat, call: Call)
    requires d <= |denied| && call.arch == arch
    ensures Exec(Filter(arch, denied), call, 4 + 2 * d, call.nr) == Some(Wanted(arch, denied[d..], call))
    decreases |denied| - d
  {
    var prog := Filter(arch, denied);
    if d == |denied| {
      assert prog[4 + 2 * d] == Insn(RET_K, 0, 0, RET_ALLOW);
      assert denied[d..] == [];
    } else {
      DenyAt(denied, d);
      assert prog[4 + 2 * d] == DenyAll(denied)[2 * d] && prog[4 + 2 * d + 1] == DenyAll(denied)[2 * d + 1];
      assert denied[d..] == [denied[d]] + denied[d + 1..];
      if call.nr == U32(denied[d]) {
        assert denied[d] in denied[d..];
      } else {
        DenyRuns(arch, denied, d + 1, call);
        assert Wanted(arch, denied[d..], call) == Wanted(arch, denied[d + 1..], call);
      }
    }
  }

  /** For every denylist and every call: wrong architectures are killed, denied calls get
      EPERM, all others are allowed. */
  lemma FilterCorrect(arch: nat, denied: seq<int>, call: Call)
    ensures Exec(Filter(arch, denied), call, 0, 0) == Some(Wanted(arch, denied, call))
  {
    var prog := Filter(arch, denied);
    assert prog[0] == Prologue(arch)[0] && prog[1] == Prologue(arch)[1]
        && prog[2] == Prologue(arch)[2] && prog[3] == Prologue(arch)[3];
    assert Exec(prog, call, 0, 0) == Exec(prog, call, 1, call.arch);
    if call.arch == arch {
      assert Exec(prog, call, 1, call.arch) == Exec(prog, call, 3, call.arch) == Exec(prog, call, 4, call.nr);
      DenyRuns(arch, denied, 0, call);
      assert denied[0..] == denied;
    } else {
      assert Exec(prog, call, 1, call.arch) == Exec(prog, call, 2, call.arch);
    }
  }

  /** Every instruction of a filter is one the kernel admits; jumps go forward and stay inside. */
  lemma FilterInsns(arch: nat, denied: seq<int>, pc: nat)
    requires pc < |Filter(arch, denied)|
    ensures InsnOk(Filter(arch, denied)[pc], pc, |Filter(arch, denied)|)
    ensures 4 <= pc && pc % 2 == 0 && pc < 4 + 2 * |denied| ==> !IsReturn(Filter(arch, denied)[pc])
  {
    var prog := Filter(arch, denied);
    if pc < 4 {
      assert prog[pc] == Prologue(arch)[pc];
    } else if pc < 4 + 2 * |denied| {
      DenyAt(denied, (pc - 4) / 2);
      assert prog[pc] == DenyAll(denied)[pc - 4];
    }
  }

  // ---- apply_seccomp ----

  /** What happens to the process: nothing, startup fails, or a program goes to the kernel. */
  datatype Verdict = Skipped | Refused | Installed(prog: seq<Insn>)

  /** The kernel sees a 16-bit program length. */
  function Loaded(prog: seq<Insn>): seq<Insn> {
    prog[..|prog| % 0x1_0000]
  }

  /** The denylist of a mode. */
  function Denied(mode: string, denied: seq<int>, mount: seq<int>): seq<int> {
    if mode == "permissive_mount" then denied else denied + mount
  }

  function Decision(
    mode: Option<string>, tupleNs: Option<string>, arch: nat, denied: seq<int>, mount: seq<int>): Verdict {
    if mode.None? || mode.value == "" || mode.value == "0" then Skipped
    else if mode.value != "1" && mode.value != "permissive_mount" then Refused
    else if arch == 0 then Refused
    else if mode.value == "1" && tupleNs.Some? && tupleNs.value != "" then Refused
    else Installed(Loaded(Filter(arch, Denied(mode.value, denied, mount))))
  }

  /** apply_seccomp up to the system call: mode checks, then the filter. */
  method ApplySeccomp(mode: Option<string>, tupleNs: Option<string>, arch: nat, denied: seq<int>, mount: seq<int>)
    returns (v: Verdict)
    ensures v == Decision(mode, tupleNs, arch, denied, mount)
  {
    if mode.None? || mode.value == "" || mode.value == "0" {
      return Skipped;
    }
    var permissiveMount := mode.value == "permissive_mount";
    if mode.value != "1" && !permissiveMount {
      return Refused;
    }
    if arch == 0 {
      return Refused;
    }
    if !permissiveMount && tupleNs.Some? && tupleNs.value != "" {
      return Refused;
    }
    var nMount := if permissiveMount then 0 else |mount|;
    assert denied + mount[..nMount] == Denied(mode.value, denied, mount);
    var prog := BuildFilter(arch, denied, mount[..nMount]);
    return Installed(prog);
  }

  /** The filter array, filled in place. It has max_insns entries, one more than are used. */
  method BuildFilter(arch: nat, denied: seq<int>, mount: seq<int>) returns (prog: seq<Insn>)
    ensures prog == Loaded(Filter(arch, denied + mount))
  {
    var total := |denied| + |mount|;
    var maxInsns := 4 + total * 2 + 2;
    FilterIs(arch, denied + mount);
    PrologueIs(arch);
    hide *;
    var f := new Insn[maxInsns](_ => Insn(0, 0, 0, 0));
    f[0] := Insn(LD_W_ABS, 0, 0, SD_ARCH);
    f[1] := Insn(JMP_JEQ_K, 1, 0, arch);
    f[2] := Insn(RET_K, 0, 0, RET_KILL_PROCESS);
    f[3] := Insn(LD_W_ABS, 0, 0, SD_NR);
    var i := 4;
    assert f[..4] == Prologue(arch) + DenyAll([]);
    i := EmitDenials(f, i, arch, [], denied);
    assert [] + denied == denied;
    i := EmitDenials(f, i, arch, denied, mount);
    ghost var done := f[..i];
    f[i] := Insn(RET_K, 0, 0, RET_ALLOW);
    i := i + 1;
    ghost var whole := Filter(arch, denied + mount);
    assert f[..i] == done + [Insn(RET_K, 0, 0, RET_ALLOW)] == whole;
    Front(f[..], i, i % 0x1_0000);
    prog := f[..i % 0x1_0000];
  }

  lemma Front(f: seq<Insn>, i: nat, k: nat)
    requires k <= i <= |f|
    ensures f[..i][..k] == f[..k]
  {
  }

  lemma PrologueIs(arch: nat)
    ensures Prologue(arch) == [Insn(LD_W_ABS, 0, 0, SD_ARCH), Insn(JMP_JEQ_K, 1, 0, arch),
                               Insn(RET_K, 0, 0, RET_KILL_PROCESS), Insn(LD_W_ABS, 0, 0, SD_NR)]
    ensures DenyAll([]) == []
  {
  }

  lemma FilterIs(arch: nat, all: seq<int>)
    ensures Filter(arch, all) == Prologue(arch) + DenyAll(all) + [Insn(RET_K, 0, 0, RET_ALLOW)]
    ensures Loaded(Filter(arch, all)) == Filter(arch, all)[..(5 + 2 * |all|) % 0x1_0000]
  {
    hide DenyAll, Prologue;
  }

  /** The loop over one denylist: two instructions a call. */
  method EmitDenials(f: array<Insn>, i0: nat, arch: nat, ghost before: seq<int>, denied: seq<int>) returns (i: nat)
    requires i0 == 4 + 2 * |before| && i0 + 2 * |denied| <= f.Length
    requires f[..i0] == Prologue(arch) + DenyAll(before)
    modifies f
    ensures i == i0 + 2 * |denied|
    ensures f[..i] == Prologue(arch) + DenyAll(before + denied)
  {
    hide *;
    i := i0;
    var d := 0;
    assert before + denied[..0] == before;
    while d < |denied|
      invariant 0 <= d <= |denied| && i == i0 + 2 * d
      invariant f[..i] == Prologue(arch) + DenyAll(before + denied[..d])
    {
      ghost var was, sofar := f[..], before + denied[..d];
      f[i] := Insn(JMP_JEQ_K, 0, 1, U32(denied[d]));
      f[i + 1] := Insn(RET_K, 0, 0, RET_ERRNO + EPERM);
      DenyMore(sofar, denied[d]);
      TwoWritten(was, i, Insn(JMP_JEQ_K, 0, 1, U32(denied[d])), Insn(RET_K, 0, 0, RET_ERRNO + EPERM));
      assert f[..] == was[i := f[i]][i + 1 := f[i + 1]];
      assert before + denied[..d + 1] == sofar + [denied[d]];
      Regroup(Prologue(arch), DenyAll(sofar), DenyOne(denied[d]));
      i := i + 2;
      d := d + 1;
    }
    assert denied[..d] == denied;
  }

  lemma DenyMore(denied: seq<int>, nr: int)
    ensures DenyAll(denied + [nr]) == DenyAll(denied) + DenyOne(nr)
    ensures DenyOne(nr) == [Insn(JMP_JEQ_K, 0, 1, U32(nr)), Insn(RET_K, 0, 0, RET_ERRNO + EPERM)]
  {
    assert (denied + [nr])[..|denied|] == denied;
    hide U32;
  }

  lemma TwoWritten(was: seq<Insn>, i: nat, a: Insn, b: Insn)
    requires i + 2 <= |was|
    ensures was[i := a][i + 1 := b][..i + 2] == was[..i] + [a, b]
  {
  }

  lemma Regroup(a: seq<Insn>, b: seq<Insn>, c: seq<Insn>)
    ensures a + b + c == a + (b + c)
  {
  }

  /** The kernel takes the program exactly if it has at most 4096 instructions: a longer one is
      refused even where its 16-bit length has wrapped around. */
  lemma AcceptedExactly(arch: nat, denied: seq<int>)
    ensures Accepted(Loaded(Filter(arch, denied))) <==> 5 + 2 * |denied| <= BPF_MAXINSNS
  {
    var prog := Filter(arch, denied);
    var loaded := Loaded(prog);
    if |prog| <= BPF_MAXINSNS {
      assert loaded == prog;
      forall pc | 0 <= pc < |prog| ensures InsnOk(prog[pc], pc, |prog|) {
        FilterInsns(arch, denied, pc);
      }
    } else if |prog| < 0x1_0000 {
      assert |loaded| == |prog|;
    } else {
      var n := |loaded|;
      assert n % 2 == 1 && n < 4 + 2 * |denied|;
      if n >= 5 {
        FilterInsns(arch, denied, n - 1);
        assert loaded[n - 1] == prog[n - 1];
      } else if n == 3 {
        assert loaded[1] == Prologue(arch)[1];
        assert !InsnOk(loaded[1], 1, 3);
      } else {
        assert n == 1 && loaded[0] == Prologue(arch)[0];
      }
    }
  }

  // ---- which environment gets which filter ----

  /** Nothing happens exactly if ACTOR_SECCOMP is unset, empty or "0"; startup fails exactly if it is
      something else than "1" and "permissive_mount", or the architecture is not supported, or "1" is
      combined with per-tuple namespaces. In every other case a filter is installed. */
  lemma DecisionExactly(
    mode: Option<string>, tupleNs: Option<string>, arch: nat, denied: seq<int>, mount: seq<int>)
    ensures var v := Decision(mode, tupleNs, arch, denied, mount);
      var off := mode == None || mode == Some("") || mode == Some("0");
      && (v.Skipped? <==> off)
      && (v.Refused? <==>
            && !off
            && (|| (mode != Some("1") && mode != Some("permissive_mount"))
                || arch == 0
                || (mode == Some("1") && tupleNs != None && tupleNs != Some(""))))
  {
    hide Filter, Loaded, Denied;
  }

  /** The verdict on a call of a filter for these numbers. */
  ghost predicate Decides(prog: seq<Insn>, arch: nat, call: Call, deny: bool) {
    Exec(prog, call, 0, 0) ==
      Some(if call.arch != arch then 0x8000_0000 else if deny then 0x0005_0001 else 0x7fff_0000)
  }

  /** Some number of the list, as the 32 bits a filter compares, is this one. */
  ghost predicate Listed(numbers: seq<int>, nr: nat) {
    exists i :: 0 <= i < |numbers| && numbers[i] % 0x1_0000_0000 == nr
  }

  lemma WantedListed(arch: nat, all: seq<int>, call: Call)
    ensures Wanted(arch, all, call) ==
      if call.arch != arch then 0x8000_0000 else if Listed(all, call.nr) then 0x0005_0001 else 0x7fff_0000
  {
    if d :| d in all && U32(d) == call.nr {
      var i :| 0 <= i < |all| && all[i] == d;
      assert Listed(all, call.nr);
    }
    if Listed(all, call.nr) {
      var i :| 0 <= i < |all| && all[i] % 0x1_0000_0000 == call.nr;
      assert all[i] in all && U32(all[i]) == call.nr;
    }
  }

  lemma ListedJoin(a: seq<int>, b: seq<int>, nr: nat)
    ensures Listed(a + b, nr) <==> Listed(a, nr) || Listed(b, nr)
  {
    if Listed(a, nr) {
      var i :| 0 <= i < |a| && a[i] % 0x1_0000_0000 == nr;
      assert (a + b)[i] == a[i];
    }
    if Listed(b, nr) {
      var i :| 0 <= i < |b| && b[i] % 0x1_0000_0000 == nr;
      assert (a + b)[|a| + i] == b[i];
    }
  }

  lemma LoadedDecides(arch: nat, all: seq<int>, call: Call)
    ensures Accepted(Loaded(Filter(arch, all))) <==> 5 + 2 * |all| <= 4096
    ensures 5 + 2 * |all| <= 4096 ==> Decides(Loaded(Filter(arch, all)), arch, call, Listed(all, call.nr))
  {
    AcceptedExactly(arch, all);
    FilterCorrect(arch, all, call);
    WantedListed(arch, all, call);
    hide Accepted, Exec, Wanted, Filter, Listed;
    assert 5 + 2 * |all| <= 4096 ==> Loaded(Filter(arch, all)) == Filter(arch, all);
  }

  /** ACTOR_SECCOMP=1, end to end: with no per-tuple namespaces a filter goes to the kernel, which takes
      it exactly if the two lists together are short enough, and which then kills on a foreign
      architecture, answers EPERM for exactly the numbers of the two lists and allows the others. */
  lemma ModeOneDenies(tupleNs: Option<string>, arch: nat, denied: seq<int>, mount: seq<int>, call: Call)
    requires arch != 0 && (tupleNs == None || tupleNs == Some(""))
    ensures var v := Decision(Some("1"), tupleNs, arch, denied, mount);
      && v.Installed?
      && (Accepted(v.prog) <==> 5 + 2 * (|denied| + |mount|) <= 4096)
      && (Accepted(v.prog) ==> Decides(v.prog, arch, call, Listed(denied, call.nr) || Listed(mount, call.nr)))
  {
    LoadedDecides(arch, denied + mount, call);
    ListedJoin(denied, mount, call.nr);
    hide Accepted, Decides, Listed, Filter, Loaded;
  }

  /** ACTOR_SECCOMP=permissive_mount, whatever the namespaces: the same for the first list alone. */
  lemma PermissiveDenies(tupleNs: Option<string>, arch: nat, denied: seq<int>, mount: seq<int>, call: Call)
    requires arch != 0
    ensures var v := Decision(Some("permissive_mount"), tupleNs, arch, denied, mount);
      && v.Installed?
      && (Accepted(v.prog) <==> 5 + 2 * |denied| <= 4096)
      && (Accepted(v.prog) ==> Decides(v.prog, arch, call, Listed(denied, call.nr)))
  {
    LoadedDecides(arch, denied, call);
    hide Accepted, Decides, Listed, Filter, Loaded;
  }

  /** permissive_mount allows whatever mode 1 allows, and besides exactly the numbers that are on the
      mount list only. */
  lemma PermissiveAllowsMore(tupleNs: Option<string>, arch: nat, denied: seq<int>, mount: seq<int>, call: Call)
    requires arch != 0 && (tupleNs == None || tupleNs == Some("")) && 5 + 2 * (|denied| + |mount|) <= 4096
    ensures var one := Decision(Some("1"), tupleNs, arch, denied, mount);
      var permissive := Decision(Some("permissive_mount"), tupleNs, arch, denied, mount);
      && one.Installed? && permissive.Installed?
      && (Exec(permissive.prog, call, 0, 0) == Some(0x7fff_0000) <==>
            || Exec(one.prog, call, 0, 0) == Some(0x7fff_0000)
            || (call.arch == arch && Listed(mount, call.nr) && !Listed(denied, call.nr)))
  {
    ModeOneDenies(tupleNs, arch, denied, mount, call);
    PermissiveDenies(tupleNs, arch, denied, mount, call);
    hide Accepted, Listed, Decision, Exec;
  }
}

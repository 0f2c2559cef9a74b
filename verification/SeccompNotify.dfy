/** Reading a pathname from the memory of a process that waits for the supervisor. */
module SeccompNotify {
  import opened Options

  type Pid = nat
  /** A process as such, not its reusable PID. */
  type Process = nat
  type Cookie = nat

  type Byte = b: int | 0 <= b < 256

  /** A notification: the process blocked in the call that raised it, and its PID. */
  datatype Notif = Notif(pid: Pid, process: Process)

  /** A cookie is valid while it is in notifs. */
  datatype Kernel = Kernel(running: map<Pid, Process>, notifs: map<Cookie, Notif>, processes: nat, cookies: nat)

  ghost predicate Sound(k: Kernel) {
    && (forall p | p in k.running :: k.running[p] < k.processes)
    && (forall p, q | p in k.running && q in k.running && p != q :: k.running[p] != k.running[q])
    && (forall c | c in k.notifs :: c < k.cookies && Holds(k, k.notifs[c]))
  }

  /** The process still runs under the PID the notification gave. */
  ghost predicate Holds(k: Kernel, n: Notif) {
    n.pid in k.running && k.running[n.pid] == n.process
  }

  /** What goes on beside the supervisor: a PID starts to be used, possibly again,
      a process dies with the calls it is blocked in, a call is interrupted or
      otherwise over, and a process blocks in a new call. */
  datatype Other = Fork(pid: Pid) | Die(pid: Pid) | Interrupt(cookie: Cookie) | Block(pid: Pid)

  function Step(k: Kernel, o: Other): Kernel {
    match o
    case Fork(pid) =>
      if pid in k.running then k
      else k.(running := k.running[pid := k.processes], processes := k.processes + 1)
    case Die(pid) =>
      k.(running := k.running - {pid}, notifs := map c | c in k.notifs && k.notifs[c].pid != pid :: k.notifs[c])
    case Interrupt(cookie) =>
      k.(notifs := k.notifs - {cookie})
    case Block(pid) =>
      if pid !in k.running then k
      else k.(notifs := k.notifs[k.cookies := Notif(pid, k.running[pid])], cookies := k.cookies + 1)
  }

  function After(k: Kernel, others: seq<Other>): Kernel {
    if others == [] then k else Step(After(k, others[..|others| - 1]), others[|others| - 1])
  }

  lemma StepIsSound(k: Kernel, o: Other)
    requires Sound(k)
    ensures Sound(Step(k, o))
  {
    var t := Step(k, o);
    forall c | c in t.notifs ensures c < t.cookies && Holds(t, t.notifs[c]) {
      assert c in k.notifs ==> Holds(k, k.notifs[c]);
    }
  }

  /** A cookie that is valid was valid all the time, for the same notification,
      and its process has been running under the same PID. */
  lemma {:induction false} ValidMeansValidBefore(k: Kernel, others: seq<Other>, cookie: Cookie)
    requires Sound(k) && cookie < k.cookies
    ensures Sound(After(k, others)) && cookie < After(k, others).cookies
    ensures cookie in After(k, others).notifs ==>
              && cookie in k.notifs && After(k, others).notifs[cookie] == k.notifs[cookie]
              && Holds(k, k.notifs[cookie]) && Holds(After(k, others), k.notifs[cookie])
  {
    if others != [] {
      var before := others[..|others| - 1];
      ValidMeansValidBefore(k, before, cookie);
      StepIsSound(After(k, before), others[|others| - 1]);
    }
  }

  // --------------------------------------------------------- system calls

  predicate CookieIsValid(k: Kernel, cookie: Cookie) {
    cookie in k.notifs
  }

  /** The open file stays with the process it was opened for. */
  function OpenMem(k: Kernel, pid: Pid, permitted: bool): Option<Process> {
    if permitted && pid in k.running then Some(k.running[pid]) else None
  }

  /** memory is what there is to read, at the address of the argument, in each
      process for which the read does not fail; a process that is gone gives
      nothing. */
  function PRead(k: Kernel, file: Process, len: nat, memory: map<Process, seq<Byte>>): Option<seq<Byte>> {
    if file !in k.running.Values || file !in memory then None
    else Some(if |memory[file]| <= len then memory[file] else memory[file][..len])
  }

  function StrNLen(s: seq<Byte>, n: nat): (r: nat)
    requires n <= |s|
    ensures r <= n && (forall i | 0 <= i < r :: s[i] != 0) && (r < n ==> s[r] == 0)
  {
    if n == 0 then 0
    else
      var r := StrNLen(s, n - 1);
      if r < n - 1 || s[n - 1] == 0 then r else n
  }

  const GTP_BAD_READ := -1
  const GTP_ID_NOT_VALID := -2
  const GTP_BAD_PATH := -3

  /** What happens beside the supervisor before each of its four system calls. */
  datatype Interleaving = Interleaving(first: seq<Other>, second: seq<Other>, third: seq<Other>, fourth: seq<Other>)

  ghost function AtOpen(k: Kernel, i: Interleaving): Kernel { After(k, i.first) }
  ghost function AtFirstCheck(k: Kernel, i: Interleaving): Kernel { After(AtOpen(k, i), i.second) }
  ghost function AtRead(k: Kernel, i: Interleaving): Kernel { After(AtFirstCheck(k, i), i.third) }
  ghost function AtSecondCheck(k: Kernel, i: Interleaving): Kernel { After(AtRead(k, i), i.fourth) }

  /** The process that raised the notification is still blocked in that very call
      when the memory is read. */
  ghost predicate BlockedAtRead(k: Kernel, cookie: Cookie, i: Interleaving) {
    && cookie in k.notifs && cookie in AtRead(k, i).notifs
    && AtRead(k, i).notifs[cookie] == k.notifs[cookie] && Holds(AtRead(k, i), k.notifs[cookie])
  }

  lemma WhatTheChecksShow(k: Kernel, cookie: Cookie, i: Interleaving)
    requires Sound(k) && cookie in k.notifs
    ensures CookieIsValid(AtSecondCheck(k, i), cookie) ==> CookieIsValid(AtRead(k, i), cookie)
    ensures CookieIsValid(AtRead(k, i), cookie) ==>
              CookieIsValid(AtFirstCheck(k, i), cookie) && BlockedAtRead(k, cookie, i)
    ensures CookieIsValid(AtFirstCheck(k, i), cookie) ==> Holds(AtOpen(k, i), k.notifs[cookie])
  {
    ValidMeansValidBefore(k, i.first, cookie);
    ValidMeansValidBefore(AtOpen(k, i), i.second, cookie);
    ValidMeansValidBefore(AtFirstCheck(k, i), i.third, cookie);
    ValidMeansValidBefore(AtRead(k, i), i.fourth, cookie);
    hide Step, After, Sound;
  }

  /** There is a process with the notification's PID whose memory may be opened. */
  ghost predicate Opened(k: Kernel, cookie: Cookie, i: Interleaving, permitted: bool)
    requires cookie in k.notifs
  {
    permitted && k.notifs[cookie].pid in AtOpen(k, i).running
  }

  /** The process that raised the notification lives and has something to read. */
  ghost predicate SomethingRead(k: Kernel, cookie: Cookie, i: Interleaving, len: nat,
                                memory: map<Process, seq<Byte>>)
    requires cookie in k.notifs
  {
    var target := k.notifs[cookie].process;
    len > 0 && target in AtRead(k, i).running.Values && target in memory && memory[target] != []
  }

  /** k is the kernel when the notification was received. A pathname is returned
      or found badly formed exactly if the target stayed blocked until after the
      read and there was something to read; then the bytes are those of the
      process that raised the notification, read while it was blocked. */
  method GetTargetPathname(k: Kernel, cookie: Cookie, path: array<Byte>, i: Interleaving, permitted: bool,
                           memory: map<Process, seq<Byte>>)
    returns (r: int, nread: int)
    requires Sound(k) && CookieIsValid(k, cookie)
    modifies path
    ensures r in {0, GTP_BAD_READ, GTP_ID_NOT_VALID, GTP_BAD_PATH}
    ensures r == 0 || r == GTP_BAD_PATH <==>
              && permitted && path.Length > 0 && CookieIsValid(AtSecondCheck(k, i), cookie)
              && k.notifs[cookie].process in memory && memory[k.notifs[cookie].process] != []
    ensures r == 0 || r == GTP_BAD_PATH ==>
              && BlockedAtRead(k, cookie, i)
              && var target := k.notifs[cookie].process;
                 && 0 < nread == (if |memory[target]| <= path.Length then |memory[target]| else path.Length)
                 && path[..] == memory[target][..nread] + old(path[nread..])
    ensures r == 0 ==> 0 in path[..nread]
    ensures r == GTP_BAD_PATH ==> 0 !in path[..nread]
    ensures r == GTP_BAD_READ <==>
              || !Opened(k, cookie, i, permitted)
              || (CookieIsValid(AtFirstCheck(k, i), cookie) && !SomethingRead(k, cookie, i, path.Length, memory))
    ensures r == GTP_ID_NOT_VALID <==>
              && Opened(k, cookie, i, permitted)
              && (!CookieIsValid(AtFirstCheck(k, i), cookie)
                  || (SomethingRead(k, cookie, i, path.Length, memory)
                      && !CookieIsValid(AtSecondCheck(k, i), cookie)))
    ensures !CookieIsValid(AtFirstCheck(k, i), cookie) || r == GTP_BAD_READ ==> path[..] == old(path[..])
    ensures r == GTP_ID_NOT_VALID && CookieIsValid(AtFirstCheck(k, i), cookie) ==>
              var target := k.notifs[cookie].process;
              && 0 < nread == (if |memory[target]| <= path.Length then |memory[target]| else path.Length)
              && path[..] == memory[target][..nread] + old(path[nread..])
  {
    WhatTheChecksShow(k, cookie, i);
    hide Step, After, Sound;
    nread := -1;
    var now := After(k, i.first);
    var procMem := OpenMem(now, k.notifs[cookie].pid, permitted);
    if procMem.None? {
      return GTP_BAD_READ, nread;
    }
    now := After(now, i.second);
    if !CookieIsValid(now, cookie) {
      return GTP_ID_NOT_VALID, nread;
    }
    now := After(now, i.third);
    var bytes := PRead(now, procMem.value, path.Length, memory);
    if bytes.Some? {
      nread := |bytes.value|;
      forall j | 0 <= j < nread {
        path[j] := bytes.value[j];
      }
    }
    if nread <= 0 {
      return GTP_BAD_READ, nread;
    }
    now := After(now, i.fourth);
    if !CookieIsValid(now, cookie) {
      return GTP_ID_NOT_VALID, nread;
    }
    if StrNLen(path[..], nread) < nread {
      return 0, nread;
    } else {
      return GTP_BAD_PATH, nread;
    }
  }

  lemma {:induction false} OneStep(k: Kernel, o: Other)
    ensures After(k, [o]) == Step(k, o)
  {
    assert [o][..0] == [];
  }

  lemma {:induction false} TwoSteps(k: Kernel, o: Other, q: Other)
    ensures After(k, [o, q]) == Step(Step(k, o), q)
  {
    OneStep(k, o);
    assert [o, q][..1] == [o];
  }

  /** Opening alone may find another process: the target may be gone and its PID
      in use again. */
  lemma PidAloneIsNotEnough(k: Kernel, cookie: Cookie)
    requires Sound(k) && cookie in k.notifs
    ensures var i := Interleaving([Die(k.notifs[cookie].pid), Fork(k.notifs[cookie].pid)], [], [], []);
            var file := OpenMem(AtOpen(k, i), k.notifs[cookie].pid, true);
            file.Some? && file.value != k.notifs[cookie].process && !CookieIsValid(AtFirstCheck(k, i), cookie)
  {
    var pid := k.notifs[cookie].pid;
    OneStep(k, Die(pid));
    TwoSteps(k, Die(pid), Fork(pid));
    assert forall now :: After(now, []) == now;
  }

  /** One check, before the read, would not do either: the call may be
      interrupted just before the read. */
  lemma FirstCheckIsNotEnough(k: Kernel, cookie: Cookie)
    requires Sound(k) && cookie in k.notifs
    ensures var i := Interleaving([], [], [Interrupt(cookie)], []);
            CookieIsValid(AtFirstCheck(k, i), cookie) && !CookieIsValid(AtRead(k, i), cookie)
  {
    OneStep(k, Interrupt(cookie));
  }
}

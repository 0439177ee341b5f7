/** The per-mount lifecycle machine. An event without a rule leaves the state unchanged. */
module MountFsm {

  datatype MountState = Detached | Mounting | Live | Syncing | Diverged | Offline | Unmounting | LocalGone | Failed

  datatype MountEvent =
    | Mount | Mounted | SyncStart | SyncSettled | Diverge | Resolved | Disconnect | Reconnect
    | Unmount | Unmounted | Fail | Retry | LocalGoneSeen | Conflict | Reset

  /** States a pass drives. */
  predicate Active(s: MountState) { s in {Mounting, Live, Syncing, Diverged, Offline} }

  /** `mountTransition`. */
  function Transition(s: MountState, e: MountEvent): MountState {
    if e == Unmount && s != Detached && s != Unmounting then Unmounting
    else if e == Fail && s != Detached && s != Unmounting then Failed
    else if e == LocalGoneSeen && Active(s) then LocalGone
    else match s
      case Detached => if e == Mount then Mounting else s
      case Mounting =>
        if e == Mounted || e == SyncSettled then Live
        else if e == Conflict then Diverged
        else if e == Disconnect then Offline
        else s
      case Live =>
        if e == SyncStart then Syncing
        else if e == Diverge || e == Conflict then Diverged
        else if e == SyncSettled then Live
        else if e == Disconnect then Offline
        else s
      case Syncing =>
        if e == SyncSettled then Live
        else if e == Diverge || e == Conflict then Diverged
        else if e == Disconnect then Offline
        else s
      case Diverged =>
        if e == Resolved || e == SyncSettled then Live
        else if e == Conflict then Diverged
        else if e == Disconnect then Offline
        else s
      case Offline =>
        if e == Reconnect || e == SyncSettled then Live
        else if e == Conflict then Diverged
        else s
      case Unmounting => if e == Unmounted then Detached else s
      case LocalGone => if e == Mount then Mounting else s
      case Failed => if e == Retry then Mounting else if e == Reset then Detached else s
  }

  // ----- the table read backwards: how each state is entered -----

  predicate Enters(s: MountState, e: MountEvent, t: MountState) { s != t && Transition(s, e) == t }

  /** Taken up again only from outside; left only by a mount, and only unmounting ends in it. */
  lemma EntersDetached(s: MountState, e: MountEvent)
    ensures Enters(s, e, Detached) <==> (s == Unmounting && e == Unmounted) || (s == Failed && e == Reset)
    ensures Enters(s, e, Mounting) <==> (s in {Detached, LocalGone} && e == Mount) || (s == Failed && e == Retry)
  {
  }

  /** A clean pass lands an active scope in live, a conflict in diverged, whatever it was in. */
  lemma EntersSettled(s: MountState, e: MountEvent)
    ensures Enters(s, e, Live) <==>
              (s in {Mounting, Syncing, Diverged, Offline} && e == SyncSettled) || (s == Mounting && e == Mounted)
              || (s == Diverged && e == Resolved) || (s == Offline && e == Reconnect)
    ensures Enters(s, e, Diverged) <==>
              (s in {Mounting, Live, Syncing, Offline} && e == Conflict) || (s in {Live, Syncing} && e == Diverge)
    ensures Enters(s, e, Syncing) <==> s == Live && e == SyncStart
  {
  }

  lemma EntersTrouble(s: MountState, e: MountEvent)
    ensures Enters(s, e, Offline) <==> s in {Mounting, Live, Syncing, Diverged} && e == Disconnect
    ensures Enters(s, e, LocalGone) <==> s in {Mounting, Live, Syncing, Diverged, Offline} && e == LocalGoneSeen
    ensures Enters(s, e, Failed) <==> s !in {Detached, Unmounting, Failed} && e == Fail
    ensures Enters(s, e, Unmounting) <==> s !in {Detached, Unmounting} && e == Unmount
  {
  }
}

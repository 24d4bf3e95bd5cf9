/**
 The HAProxy addon writes a configuration, checks it in a throw-away container, puts the previous
 copy back when it is rejected, and only then touches the real container. The file on disk, the
 container and the stored entry are three separate things, and every command can fail between any
 two of its actions.
 */
module HAProxy {
  import opened Text
  import opened Runs

  datatype Entry = Entry(image: string, custom: bool)

  /** A container and the configuration its process last read; `born` numbers the containers that
      were ever created. */
  datatype Container = Container(born: nat, image: string, running: bool, loaded: string)

  /** A configuration and the image whose process read it. */
  datatype Load = Load(image: string, conf: string)

  /** `loads` is the history: every time a container was started, reloaded or restarted. */
  datatype World = World(
    disk: Option<string>, stored: Option<Entry>, container: Option<Container>, made: nat, loads: seq<Load>)

  const NOTHING := World(None, None, None, 0, [])

  /** How far a command that writes a configuration comes. */
  datatype Outcome =
    | NotWritten
    | Killed
    | Rejected(restored: bool)
    | NotStopped
    | NotRemoved
    | NotCreated
    | NotSaved
    | NotSignalled
    | Completed

  datatype Command =
    | Install(image: string, custom: bool, conf: string, reload: bool, outcome: Outcome)
    | Reload(conf: string, outcome: Outcome)
    | Start(works: bool, removed: bool, created: bool)
    | Stop
    | Remove(outcome: Outcome, kept: bool)
    | Restart

  predicate Running(w: World) {
    w.container.Some? && w.container.value.running
  }

  /** A process of this container reads the file that is on disk now. */
  function Loads(w: World, born: nat, image: string): World {
    if w.disk.None? then w
    else w.(container := Some(Container(born, image, true, w.disk.value)), loads := w.loads + [Load(image, w.disk.value)])
  }

  /** The container that is there reads it. */
  function Rereads(w: World): World {
    if w.container.None? then w else Loads(w, w.container.value.born, w.container.value.image)
  }

  /** A new container reads it. */
  function Created(w: World, image: string): World {
    if w.disk.None? then w else Loads(w, w.made, image).(made := w.made + 1)
  }

  function Stopped(w: World): World {
    if w.container.None? then w else w.(container := Some(w.container.value.(running := false)))
  }

  /** The file after a write that is not followed by an accepting check. */
  function RolledBack(w: World, conf: string, o: Outcome): World {
    if o.NotWritten? then w
    else if o.Rejected? && o.restored && w.disk.Some? then w
    else w.(disk := Some(conf))
  }

  predicate PassedCheck(o: Outcome) {
    !o.NotWritten? && !o.Killed? && !o.Rejected?
  }

  /** `EnsureContainer`, then the save. */
  function Recreated(w: World, image: string, custom: bool, o: Outcome): World {
    if o.NotStopped? && Running(w) then w
    else if o.NotRemoved? && w.container.Some? then Stopped(w)
    else if o.NotCreated? then w.(container := None)
    else
      var created := Created(w, image);
      if o.NotSaved? then created else created.(stored := Some(Entry(image, custom)))
  }

  /** The save, then the signal to the running container. */
  function Signalled(w: World, image: string, o: Outcome): World {
    if o.NotSaved? then w
    else
      var saved := w.(stored := Some(Entry(image, true)));
      if o.NotSignalled? then saved else Rereads(saved)
  }

  function Step(w: World, c: Command): World {
    match c
    case Install(image, custom, conf, reload, o) =>
      if !PassedCheck(o) then RolledBack(w, conf, o)
      else
        var written := w.(disk := Some(conf));
        if reload && custom && Running(w) then Signalled(written, image, o) else Recreated(written, image, custom, o)
    case Reload(conf, o) =>
      if w.stored.None? || !w.stored.value.custom || !Running(w) then w
      else if !PassedCheck(o) then RolledBack(w, conf, o)
      else if o.Completed? then Rereads(w.(disk := Some(conf)))
      else w.(disk := Some(conf))
    case Start(works, removed, created) =>
      if w.stored.None? || Running(w) then w
      else if w.container.Some? && works then Rereads(w)
      else if w.container.Some? && !removed then w
      else if created then Created(w.(container := None), w.stored.value.image)
      else w.(container := None)
    case Stop => if w.stored.None? then w else Stopped(w)
    case Remove(o, kept) =>
      if w.stored.None? then w
      else if o.NotRemoved? then Stopped(w)
      else
        var gone := w.(container := None, disk := if kept then w.disk else None);
        if o.NotSaved? then gone else gone.(stored := None)
    case Restart => Rereads(w)
  }

  // --- what the commands mean ------------------------------------------------------------------------

  /** An install that completes leaves its file on disk and read, and its entry stored. With --reload,
      for a custom file and a running container, that container goes on; otherwise there is a new
      one, of the image asked for. */
  lemma CompletedInstall(w: World, image: string, custom: bool, conf: string, reload: bool)
    ensures var t := Step(w, Install(image, custom, conf, reload, Completed));
            && t.disk == Some(conf) && t.stored == Some(Entry(image, custom)) && Running(t) && t.container.value.loaded == conf
            && (t.made == w.made <==> reload && custom && Running(w))
            && if reload && custom && Running(w) then
                 t.container == Some(w.container.value.(loaded := conf)) && t.loads == w.loads + [Load(w.container.value.image, conf)]
               else
                 && t.container == Some(Container(w.made, image, true, conf)) && t.made == w.made + 1
                 && t.loads == w.loads + [Load(image, conf)]
  {
  }

  /** An install that passes its check and fails later leaves the new file, and of the rest exactly
      what it had not come to: the running container, a stopped one, none, or the stored entry. */
  lemma FailedInstall(w: World, image: string, custom: bool, conf: string, reload: bool)
    ensures var written := w.(disk := Some(conf));
            if reload && custom && Running(w) then
              && Step(w, Install(image, custom, conf, reload, NotSaved)) == written
              && Step(w, Install(image, custom, conf, reload, NotSignalled)) == written.(stored := Some(Entry(image, custom)))
            else
              && (Running(w) ==> Step(w, Install(image, custom, conf, reload, NotStopped)) == written)
              && (w.container.Some? ==>
                    Step(w, Install(image, custom, conf, reload, NotRemoved))
                    == written.(container := Some(w.container.value.(running := false))))
              && Step(w, Install(image, custom, conf, reload, NotCreated)) == written.(container := None)
              && Step(w, Install(image, custom, conf, reload, NotSaved))
                 == written.(container := Some(Container(w.made, image, true, conf)), made := w.made + 1, loads := w.loads + [Load(image, conf)])
  {
  }

  /** A rejected install or reload with a previous copy changes nothing at all. */
  lemma RejectedIsUndone(w: World, image: string, custom: bool, conf: string, reload: bool)
    requires w.disk.Some?
    ensures Step(w, Install(image, custom, conf, reload, Rejected(true))) == w && Step(w, Reload(conf, Rejected(true))) == w
  {
  }

  /** The other commands, when nothing fails: a reload makes the same container read the new file, a
      start runs what is there or makes a new container from the file on disk, a stop stops, a
      remove leaves nothing. All but a restart need a stored entry, and a reload a custom file. */
  lemma CommandsMean(w: World, conf: string)
    ensures w.stored.None? ==>
              forall c: Command :: c.Reload? || c.Start? || c.Stop? || c.Remove? ==> Step(w, c) == w
    ensures w.stored.Some? && !w.stored.value.custom ==> forall o :: Step(w, Reload(conf, o)) == w
    ensures w.stored.Some? && w.stored.value.custom && Running(w) ==>
              Step(w, Reload(conf, Completed)) == w.(disk := Some(conf), container := Some(w.container.value.(loaded := conf)),
                                                     loads := w.loads + [Load(w.container.value.image, conf)])
    ensures w.stored.Some? && w.container.Some? && !Running(w) && w.disk.Some? ==>
              Step(w, Start(true, true, true)) == w.(container := Some(w.container.value.(running := true, loaded := w.disk.value)),
                                                     loads := w.loads + [Load(w.container.value.image, w.disk.value)])
    ensures w.stored.Some? && w.container.None? && w.disk.Some? ==>
              Step(w, Start(true, true, true)) == w.(container := Some(Container(w.made, w.stored.value.image, true, w.disk.value)), made := w.made + 1,
                                                     loads := w.loads + [Load(w.stored.value.image, w.disk.value)])
    ensures w.stored.Some? && w.container.Some? ==>
              Step(w, Stop) == w.(container := Some(w.container.value.(running := false)))
    ensures w.stored.Some? ==>
              Step(w, Remove(Completed, false)) == w.(disk := None, stored := None, container := None)
  {
  }

  // --- what the check is for ---------------------------------------------------------------------

  type Checker = (string, string) -> bool

  /** Some image's own check accepts the configuration. */
  ghost predicate Vetted(accepts: Checker, conf: string) {
    exists image :: accepts(image, conf)
  }

  /** A check that passes is right; a check may fail for any reason. */
  ghost predicate Honest(accepts: Checker, w: World, c: Command) {
    match c
    case Install(image, _, conf, _, o) => PassedCheck(o) ==> accepts(image, conf)
    case Reload(conf, o) => PassedCheck(o) && w.stored.Some? ==> accepts(w.stored.value.image, conf)
    case _ => true
  }

  predicate InUse(w: World) {
    w.stored.Some? || w.container.Some?
  }

  ghost predicate DiskVetted(accepts: Checker, w: World) {
    InUse(w) && w.disk.Some? ==> Vetted(accepts, w.disk.value)
  }

  ghost predicate LoadsVetted(accepts: Checker, w: World) {
    && (forall i :: 0 <= i < |w.loads| ==> Vetted(accepts, w.loads[i].conf))
    && (w.container.Some? ==> Vetted(accepts, w.container.value.loaded))
  }

  ghost predicate Inv(accepts: Checker, w: World) {
    DiskVetted(accepts, w) && LoadsVetted(accepts, w)
  }

  /** The command writes a file and goes no further than a check that does not pass. */
  predicate Unaccepted(w: World, c: Command) {
    || (c.Install? && !PassedCheck(c.outcome))
    || (c.Reload? && !PassedCheck(c.outcome) && w.stored.Some? && w.stored.value.custom && Running(w))
  }

  /** A file that did not pass stays behind while something could still start from it: the process
      was killed, there was no previous copy, or it could not be put back. */
  predicate LeavesFile(w: World, c: Command) {
    && Unaccepted(w, c) && InUse(w) && !c.outcome.NotWritten?
    && !(c.outcome.Rejected? && c.outcome.restored && w.disk.Some?)
  }

  ghost predicate Guarded(accepts: Checker, w: World, c: Command) {
    LeavesFile(w, c) ==> Vetted(accepts, c.conf)
  }

  lemma LoadsKeep(accepts: Checker, w: World, image: string)
    requires LoadsVetted(accepts, w) && (w.disk.Some? ==> Vetted(accepts, w.disk.value))
    ensures Inv(accepts, Rereads(w)) && Inv(accepts, Created(w, image))
  {
  }

  lemma PassedIsVetted(accepts: Checker, w: World, c: Command)
    requires Honest(accepts, w, c)
    ensures c.Install? && PassedCheck(c.outcome) ==> Vetted(accepts, c.conf)
    ensures c.Reload? && PassedCheck(c.outcome) && w.stored.Some? ==> Vetted(accepts, c.conf)
  {
  }

  lemma StepKeeps(accepts: Checker, w: World, c: Command)
    requires Inv(accepts, w) && Honest(accepts, w, c) && Guarded(accepts, w, c)
    ensures Inv(accepts, Step(w, c))
  {
    PassedIsVetted(accepts, w, c);
    match c
    case Install(image, custom, conf, reload, o) =>
      if PassedCheck(o) {
        var written := w.(disk := Some(conf));
        LoadsKeep(accepts, written, image);
        if w.container.Some? { LoadsKeep(accepts, written.(stored := Some(Entry(image, true))), w.container.value.image); }
      }
    case Reload(conf, o) =>
      if w.container.Some? && PassedCheck(o) && w.stored.Some? { LoadsKeep(accepts, w.(disk := Some(conf)), w.container.value.image); }
    case Start(_, _, _) =>
      if w.container.Some? { LoadsKeep(accepts, w, w.container.value.image); }
      if w.stored.Some? { LoadsKeep(accepts, w.(container := None), w.stored.value.image); }
    case Restart =>
      if w.container.Some? { LoadsKeep(accepts, w, w.container.value.image); }
    case _ =>
  }

  // --- the rollback, over runs ---------------------------------------------------------------------

  /** What a command may not do: be killed between write and check, fail to put the previous copy
      back, or delete the directory and then fail to save that the entry is gone. Every other
      failure is allowed. */
  predicate Tidy(c: Command) {
    && (c.Install? || c.Reload? ==> !c.outcome.Killed? && c.outcome != Rejected(false))
    && (c.Remove? ==> !(c.outcome.NotSaved? && !c.kept))
  }

  /** Why the rollback is enough: whatever could be started has a file on disk that passed, so
      there is always a good copy to put back. */
  ghost predicate Backed(accepts: Checker, w: World) {
    && (InUse(w) ==> w.disk.Some? && Vetted(accepts, w.disk.value))
    && LoadsVetted(accepts, w)
  }

  lemma TidyStep(accepts: Checker, w: World, c: Command)
    requires Backed(accepts, w) && Honest(accepts, w, c) && Tidy(c)
    ensures Backed(accepts, Step(w, c))
  {
    StepKeeps(accepts, w, c);
  }

  /** Over any mix of commands that succeed, are rejected, or fail between any two of their other
      actions: no container is ever started, reloaded or restarted from a configuration that no
      check accepted, and a stored entry always has a file on disk that passed. */
  lemma RollbackHolds(accepts: Checker, commands: seq<Command>)
    requires forall c :: c in commands ==> Tidy(c)
    requires AllOk(Step, (w, c) => Honest(accepts, w, c), NOTHING, commands)
    ensures var w := Run(Step, NOTHING, commands);
            && (forall i :: 0 <= i < |w.loads| ==> Vetted(accepts, w.loads[i].conf))
            && (w.stored.Some? ==> w.disk.Some? && Vetted(accepts, w.disk.value))
            && (w.container.Some? ==> w.disk.Some? && Vetted(accepts, w.disk.value))
  {
    var honest, ok := (w, c) => Honest(accepts, w, c), (w, c) => Honest(accepts, w, c) && Tidy(c);
    var inv := w => Backed(accepts, w);
    AllOkAnd(Step, honest, Tidy, ok, NOTHING, commands);
    forall w, c | inv(w) && ok(w, c)
      ensures inv(Step(w, c))
    {
      TidyStep(accepts, w, c);
    }
    RunKeeps(Step, ok, inv, NOTHING, commands);
  }

  // --- exactly which steps break it -----------------------------------------------------------------

  /** For one checker: a command leaves the instance startable from an unchecked file if and only if
      it leaves its own file behind and no image accepts that. */
  lemma GuardExact(accepts: Checker, w: World, c: Command)
    requires DiskVetted(accepts, w) && Honest(accepts, w, c)
    ensures DiskVetted(accepts, Step(w, c)) <==> Guarded(accepts, w, c)
  {
    PassedIsVetted(accepts, w, c);
  }

  /** The command leaves behind nothing but what was there. */
  predicate NothingNew(w: World, c: Command) {
    LeavesFile(w, c) ==> w.disk == Some(c.conf)
  }

  /** For all checkers at once, so that the condition mentions none: a step is safe whatever the
      check accepts if and only if it leaves no new file behind while the instance is in use. */
  lemma LeavingExact(w: World, c: Command)
    ensures (forall accepts: Checker :: DiskVetted(accepts, w) && Honest(accepts, w, c) ==> DiskVetted(accepts, Step(w, c)))
            <==> NothingNew(w, c)
  {
    if NothingNew(w, c) {
      forall accepts: Checker | DiskVetted(accepts, w) && Honest(accepts, w, c)
        ensures DiskVetted(accepts, Step(w, c))
      {
        GuardExact(accepts, w, c);
      }
    } else {
      var others: Checker := (image, conf) => conf != c.conf;
      if w.disk.Some? { assert others("", w.disk.value); }
      assert DiskVetted(others, w) && Honest(others, w, c) && !Vetted(others, c.conf);
      GuardExact(others, w, c);
    }
  }

  /** Over every run of such steps, so also with kills, failed restores and unsaved removes where
      they leave nothing new behind, no unchecked configuration is loaded or left in use. */
  lemma OnlyVettedIsLoaded(accepts: Checker, commands: seq<Command>)
    requires AllOk(Step, (w, c) => Honest(accepts, w, c) && NothingNew(w, c), NOTHING, commands)
    ensures var w := Run(Step, NOTHING, commands);
            && (forall i :: 0 <= i < |w.loads| ==> Vetted(accepts, w.loads[i].conf))
            && (InUse(w) && w.disk.Some? ==> Vetted(accepts, w.disk.value))
  {
    var ok, inv := (w, c) => Honest(accepts, w, c) && NothingNew(w, c), w => Inv(accepts, w);
    forall w, c | inv(w) && ok(w, c)
      ensures inv(Step(w, c))
    {
      StepKeeps(accepts, w, c);
    }
    RunKeeps(Step, ok, inv, NOTHING, commands);
  }

  /** A run that needs it: the remove whose save fails, then a rejected install, then a start. No
      copy exists to put back, the entry is still stored, and the rejected file is loaded. */
  lemma RejectedFileIsLoaded(image: string, good: string, bad: string)
    ensures var commands := [
              Install(image, true, good, false, Completed),
              Remove(NotSaved, false),
              Install(image, true, bad, false, Rejected(true)),
              Start(true, true, true)];
            Run(Step, NOTHING, commands).loads == [Load(image, good), Load(image, bad)]
  {
    RunOfFour(Step, (w: World, c: Command) => true, NOTHING, Install(image, true, good, false, Completed),
              Remove(NotSaved, false), Install(image, true, bad, false, Rejected(true)), Start(true, true, true));
  }

  // --- the same image ------------------------------------------------------------------------------

  /** The stored entry's own image accepts the file on disk. */
  predicate Matched(accepts: Checker, w: World) {
    w.stored.Some? && w.disk.Some? ==> accepts(w.stored.value.image, w.disk.value)
  }

  predicate ReloadsRunning(w: World, c: Command) {
    c.Install? && c.reload && c.custom && Running(w)
  }

  /** The container is replaced, so the install goes on to its save. */
  predicate Replaces(w: World, o: Outcome) {
    !(o.NotStopped? && Running(w)) && !(o.NotRemoved? && w.container.Some?) && !o.NotCreated?
  }

  /** The install got past the check and failed before its entry was saved. */
  predicate Unsaved(w: World, c: Command) {
    && c.Install? && PassedCheck(c.outcome) && w.stored.Some?
    && (c.outcome.NotSaved? || (!ReloadsRunning(w, c) && !Replaces(w, c.outcome)))
  }

  /** The operator can see it: the install that failed did not ask for another image. */
  predicate KeepsImage(w: World, c: Command) {
    Unsaved(w, c) ==> c.image == w.stored.value.image
  }

  /** Over every run of tidy commands in which installs that fail before saving keep the image, the
      stored entry has a file on disk, and its own image accepts it. */
  lemma StoredImageAccepts(accepts: Checker, commands: seq<Command>)
    requires forall c :: c in commands ==> Tidy(c)
    requires AllOk(Step, (w, c) => Honest(accepts, w, c) && KeepsImage(w, c), NOTHING, commands)
    ensures var w := Run(Step, NOTHING, commands);
            w.stored.Some? ==> w.disk.Some? && accepts(w.stored.value.image, w.disk.value)
  {
    var honest := (w, c) => Honest(accepts, w, c) && KeepsImage(w, c);
    var ok, inv := (w, c) => Honest(accepts, w, c) && KeepsImage(w, c) && Tidy(c), w => BackedByOwn(accepts, w);
    AllOkAnd(Step, honest, Tidy, ok, NOTHING, commands);
    forall w, c | inv(w) && ok(w, c)
      ensures inv(Step(w, c))
    {
      MatchedStep(accepts, w, c);
    }
    RunKeeps(Step, ok, inv, NOTHING, commands);
  }

  ghost predicate BackedByOwn(accepts: Checker, w: World) {
    (InUse(w) ==> w.disk.Some?) && Matched(accepts, w)
  }

  lemma MatchedStep(accepts: Checker, w: World, c: Command)
    requires BackedByOwn(accepts, w) && Honest(accepts, w, c) && Tidy(c) && KeepsImage(w, c)
    ensures BackedByOwn(accepts, Step(w, c))
  {
  }

  /** What every checker needs of one step: an unsaved install keeps the image or the text, and no
      new file is left behind beside a stored entry. */
  predicate ImageSafe(w: World, c: Command) {
    && (Unsaved(w, c) ==> c.image == w.stored.value.image || w.disk == Some(c.conf))
    && (w.stored.Some? ==> NothingNew(w, c))
  }

  lemma UnsavedEnds(w: World, c: Command)
    requires Unsaved(w, c)
    ensures Step(w, c).stored == w.stored && Step(w, c).disk == Some(c.conf)
  {
  }

  lemma LeftBehind(w: World, c: Command)
    requires LeavesFile(w, c)
    ensures Step(w, c).stored == w.stored && Step(w, c).disk == Some(c.conf) && !PassedCheck(c.outcome)
  {
  }

  lemma ImageSafeKeeps(accepts: Checker, w: World, c: Command)
    requires Matched(accepts, w) && Honest(accepts, w, c) && ImageSafe(w, c)
    ensures Matched(accepts, Step(w, c))
  {
  }

  /** The condition is exact, and mentions no checker: a step keeps the stored image's acceptance
      whatever the check accepts if and only if it is safe in that sense. */
  lemma ImageExact(w: World, c: Command)
    ensures (forall accepts: Checker :: Matched(accepts, w) && Honest(accepts, w, c) ==> Matched(accepts, Step(w, c)))
            <==> ImageSafe(w, c)
  {
    if ImageSafe(w, c) {
      forall accepts: Checker | Matched(accepts, w) && Honest(accepts, w, c)
        ensures Matched(accepts, Step(w, c))
      {
        ImageSafeKeeps(accepts, w, c);
      }
    } else if Unsaved(w, c) {
      UnsavedEnds(w, c);
      var mine: Checker := (image, conf) => image == c.image || w.disk == Some(conf);
      assert Matched(mine, w) && Honest(mine, w, c) && !Matched(mine, Step(w, c));
    } else {
      LeftBehind(w, c);
      var others: Checker := (image, conf) => conf != c.conf;
      assert Matched(others, w) && Honest(others, w, c) && !Matched(others, Step(w, c));
    }
  }

  /** A run that needs it: an upgrade of image and file passes its check and its save fails; the
      stored entry is left with a file that only the other image accepts. */
  lemma UnsavedImageBreaks(x: string, y: string, a: string, b: string)
    requires x != y && a != b
    ensures var accepts: Checker := (image, conf) => (image == x && conf == a) || (image == y && conf == b);
            var commands := [Install(x, true, a, false, Completed), Install(y, true, b, false, NotSaved)];
            && AllOk(Step, (w, c) => Honest(accepts, w, c), NOTHING, commands)
            && !Matched(accepts, Run(Step, NOTHING, commands))
  {
    var accepts: Checker := (image, conf) => (image == x && conf == a) || (image == y && conf == b);
    RunOfTwo(Step, (w, c) => Honest(accepts, w, c), NOTHING, Install(x, true, a, false, Completed), Install(y, true, b, false, NotSaved));
  }

  // --- the image that reads --------------------------------------------------------------------------

  /** The images that could read the file next: the stored entry's and the container's. */
  predicate Reads(w: World, image: string) {
    (w.stored.Some? && w.stored.value.image == image) || (w.container.Some? && w.container.value.image == image)
  }

  ghost predicate AllReadersAccept(accepts: Checker, w: World) {
    w.disk.Some? ==> forall image :: Reads(w, image) ==> accepts(image, w.disk.value)
  }

  /** The install ends with the container it found. */
  predicate KeepsContainer(w: World, c: Command) {
    && c.Install? && w.container.Some?
    && (ReloadsRunning(w, c) || (c.outcome.NotStopped? && Running(w)) || c.outcome.NotRemoved?)
  }

  /** What the operator can see before the command: a new text is checked with an image that is also
      the image of whatever entry and container it leaves in place, and no unchecked text stays. */
  predicate ReadersKept(w: World, c: Command) {
    && NothingNew(w, c)
    && (c.Install? && PassedCheck(c.outcome) && w.disk != Some(c.conf) ==>
          && (Unsaved(w, c) ==> c.image == w.stored.value.image)
          && (KeepsContainer(w, c) ==> c.image == w.container.value.image))
    && (c.Reload? && PassedCheck(c.outcome) && w.disk != Some(c.conf)
        && w.stored.Some? && w.stored.value.custom && Running(w) ==>
          w.container.value.image == w.stored.value.image)
  }

  lemma InstallKeepsReaders(accepts: Checker, w: World, c: Command)
    requires AllReadersAccept(accepts, w) && Honest(accepts, w, c) && ReadersKept(w, c) && c.Install?
    ensures AllReadersAccept(accepts, Step(w, c))
  {
  }

  lemma ReadersKeep(accepts: Checker, w: World, c: Command)
    requires AllReadersAccept(accepts, w) && Honest(accepts, w, c) && ReadersKept(w, c)
    ensures AllReadersAccept(accepts, Step(w, c))
  {
    if c.Install? { InstallKeepsReaders(accepts, w, c); }
  }

  /** The command's own check was of this text with this image, and passed. */
  predicate Checks(w: World, c: Command, image: string, conf: string) {
    || (c.Install? && PassedCheck(c.outcome) && c.conf == conf && c.image == image)
    || (c.Reload? && PassedCheck(c.outcome) && c.conf == conf && w.stored.Some? && w.stored.value.image == image)
  }

  /** Otherwise an image is left that nobody checked the new text with. */
  lemma UncheckedReader(w: World, c: Command) returns (image: string)
    requires !ReadersKept(w, c)
    ensures var t := Step(w, c);
            t.disk == Some(c.conf) && w.disk != t.disk && Reads(t, image) && !Checks(w, c, image, c.conf)
  {
    if LeavesFile(w, c) && w.disk != Some(c.conf) {
      LeftBehind(w, c);
      image := if w.stored.Some? then w.stored.value.image else w.container.value.image;
    } else if c.Install? && Unsaved(w, c) && c.image != w.stored.value.image {
      image := w.stored.value.image;
    } else {
      image := w.container.value.image;
    }
  }

  /** The condition is exact: a step keeps every reader on a file it accepts, whatever the check
      accepts, if and only if it meets it. */
  lemma ReadersExact(w: World, c: Command)
    ensures (forall accepts: Checker :: AllReadersAccept(accepts, w) && Honest(accepts, w, c) ==> AllReadersAccept(accepts, Step(w, c)))
            <==> ReadersKept(w, c)
  {
    if ReadersKept(w, c) {
      forall accepts: Checker | AllReadersAccept(accepts, w) && Honest(accepts, w, c)
        ensures AllReadersAccept(accepts, Step(w, c))
      {
        ReadersKeep(accepts, w, c);
      }
    } else {
      var image := UncheckedReader(w, c);
      var least: Checker := (image, conf) => (w.disk == Some(conf) && Reads(w, image)) || Checks(w, c, image, conf);
      assert AllReadersAccept(least, w) && Honest(least, w, c) && !least(image, c.conf);
      assert !AllReadersAccept(least, Step(w, c));
    }
  }

  ghost predicate OwnLoads(accepts: Checker, w: World) {
    forall i :: 0 <= i < |w.loads| ==> accepts(w.loads[i].image, w.loads[i].conf)
  }

  /** What a step loads is the file it leaves on disk, read by the container it leaves. */
  lemma StepLoads(w: World, c: Command)
    ensures var t := Step(w, c);
            t.loads == w.loads ||
            (t.container.Some? && t.disk.Some? && t.loads == w.loads + [Load(t.container.value.image, t.disk.value)])
  {
  }

  /** Over every run of such steps, whatever fails in them, each start, reload and restart was of a
      file that the very image that read it accepts. */
  lemma EveryLoadByItsImage(accepts: Checker, commands: seq<Command>)
    requires AllOk(Step, (w, c) => Honest(accepts, w, c) && ReadersKept(w, c), NOTHING, commands)
    ensures var w := Run(Step, NOTHING, commands);
            forall i :: 0 <= i < |w.loads| ==> accepts(w.loads[i].image, w.loads[i].conf)
  {
    var ok := (w, c) => Honest(accepts, w, c) && ReadersKept(w, c);
    var inv := w => AllReadersAccept(accepts, w) && OwnLoads(accepts, w);
    forall w, c | inv(w) && ok(w, c)
      ensures inv(Step(w, c))
    {
      ReadersKeep(accepts, w, c);
      StepLoads(w, c);
    }
    RunKeeps(Step, ok, inv, NOTHING, commands);
  }

  /** A run that needs it: `--reload` with another image checks the file with that image, and the
      running container of the old image reads it. */
  lemma ReloadReadsWithOldImage(x: string, y: string, a: string, b: string)
    requires x != y && a != b
    ensures var accepts: Checker := (image, conf) => (image == x && conf == a) || (image == y && conf == b);
            var commands := [Install(x, true, a, false, Completed), Install(y, true, b, true, Completed)];
            && AllOk(Step, (w, c) => Honest(accepts, w, c), NOTHING, commands)
            && Load(x, b) in Run(Step, NOTHING, commands).loads && !accepts(x, b)
  {
    var accepts: Checker := (image, conf) => (image == x && conf == a) || (image == y && conf == b);
    var first, second := Install(x, true, a, false, Completed), Install(y, true, b, true, Completed);
    RunOfTwo(Step, (w, c) => Honest(accepts, w, c), NOTHING, first, second);
    assert Step(Step(NOTHING, first), second).loads[1] == Load(x, b);
  }

  // --- the commands as they run ---------------------------------------------------------------------

  /** One instance: what is on disk, in the configuration file of pg, and in podman. */
  class Instance {
    var disk: Option<string>
    var stored: Option<Entry>
    var container: Option<Container>
    var made: nat
    ghost var loads: seq<Load>

    constructor ()
      ensures Seen() == NOTHING
    {
      disk, stored, container, made, loads := None, None, None, 0, [];
    }

    ghost function Seen(): World
      reads this
    {
      World(disk, stored, container, made, loads)
    }

    /** Snapshot, write, check, and put back. */
    method WriteChecked(conf: string, o: Outcome) returns (ok: bool)
      modifies this
      ensures ok <==> PassedCheck(o)
      ensures Seen() == if ok then old(Seen()).(disk := Some(conf)) else RolledBack(old(Seen()), conf, o)
    {
      var previous := disk;
      if o.NotWritten? { return false; }
      disk := Some(conf);
      if o.Killed? { return false; }
      if o.Rejected? {
        if previous.Some? && o.restored { disk := previous; }
        return false;
      }
      ok := true;
    }

    /** `createContainer`. */
    method Create(image: string)
      requires disk.Some?
      modifies this
      ensures Seen() == Created(old(Seen()), image)
    {
      container, made := Some(Container(made, image, true, disk.value)), made + 1;
      loads := loads + [Load(image, disk.value)];
    }

    /** A start or a signal: the container that is there reads the file. */
    method Reread()
      requires disk.Some? && container.Some?
      modifies this
      ensures Seen() == Rereads(old(Seen()))
    {
      loads := loads + [Load(container.value.image, disk.value)];
      container := Some(container.value.(running := true, loaded := disk.value));
    }

    /** `EnsureContainer`: stop and remove what is there, then create. */
    method EnsureContainer(image: string, o: Outcome) returns (ok: bool)
      requires disk.Some?
      modifies this
      ensures ok ==> Seen() == Created(old(Seen()), image)
      ensures !ok <==> (o.NotStopped? && Running(old(Seen()))) || (o.NotRemoved? && old(container).Some?) || o.NotCreated?
      ensures !ok ==> forall custom :: Seen() == Recreated(old(Seen()), image, custom, o)
    {
      if container.Some? && container.value.running {
        if o.NotStopped? { return false; }
        container := Some(container.value.(running := false));
      }
      if container.Some? {
        if o.NotRemoved? { return false; }
        container := None;
      }
      if o.NotCreated? { return false; }
      Create(image);
      ok := true;
    }

    /** `runAddonInstallHAProxy`, from the snapshot on. */
    method InstallInstance(image: string, custom: bool, conf: string, reload: bool, o: Outcome)
      modifies this
      ensures Seen() == Step(old(Seen()), Install(image, custom, conf, reload, o))
    {
      var ok := WriteChecked(conf, o);
      if !ok { return; }
      if reload && custom && container.Some? && container.value.running {
        if o.NotSaved? { return; }
        stored := Some(Entry(image, custom));
        if !o.NotSignalled? { Reread(); }
        return;
      }
      ok := EnsureContainer(image, o);
      if ok && !o.NotSaved? { stored := Some(Entry(image, custom)); }
    }

    /** `Reload`. */
    method ReloadInstance(conf: string, o: Outcome)
      modifies this
      ensures Seen() == Step(old(Seen()), Reload(conf, o))
    {
      if stored.None? || !stored.value.custom { return; }
      if container.None? || !container.value.running { return; }
      var ok := WriteChecked(conf, o);
      if ok && o.Completed? { Reread(); }
    }

    /** `StartContainer`. */
    method StartInstance(works: bool, removed: bool, created: bool)
      modifies this
      ensures Seen() == Step(old(Seen()), Start(works, removed, created))
    {
      if stored.None? { return; }
      if container.Some? {
        if container.value.running { return; }
        if works {
          if disk.Some? { Reread(); }
          return;
        }
        if !removed { return; }
        container := None;
      }
      if disk.Some? && created { Create(stored.value.image); }
    }
  }
}

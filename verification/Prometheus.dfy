/**
 The Prometheus addon: a running container is reloaded in place where that is enough and recreated
 where it is not. Rule files need a mount, and a mount cannot be added by a reload, so the decision
 rests on the stored entry telling the truth about the container.
 */
module Prometheus {
  import opened Text
  import opened Runs

  const DEFAULT_IMAGE := "docker.io/prom/prometheus:v3.15.0"

  datatype Entry = Entry(image: string, rules: seq<string>)

  /** What is written for the container: the configuration and the copies of the rule files. */
  datatype Files = Files(conf: string, rules: map<string, string>)

  /** `born` numbers the containers that were ever created. */
  datatype Container = Container(born: nat, image: string, running: bool, mounted: bool, loaded: Files)

  /** A reload in place: whether the container had the rules mount, and what it then read. */
  datatype Reloaded = Reloaded(mounted: bool, files: Files)

  /** `made` counts the containers created so far, and `reloads` is the history of reloads. */
  datatype World = World(
    disk: Option<Files>, stored: Option<Entry>, container: Option<Container>, made: nat, reloads: seq<Reloaded>)

  const NOTHING := World(None, None, None, 0, [])

  datatype Outcome =
    | NotWritten
    | NotSignalled
    | NotStopped
    | NotRemoved
    | NotCreated
    | NotSaved
    | Completed

  /** `files` is what the command renders and copies, `rules` the `--rule-file` list if passed, and
      `image` the `--image` flag, empty when absent. */
  datatype Command =
    | Install(image: string, rules: Option<seq<string>>, files: Files, force: bool, outcome: Outcome)
    | Reload(files: Files, outcome: Outcome)
    | Start(works: bool, removed: bool, created: bool, files: Files)
    | Stop
    | Remove(outcome: Outcome)

  predicate Running(w: World) {
    w.container.Some? && w.container.value.running
  }

  predicate StoredRules(w: World) {
    w.stored.Some? && |w.stored.value.rules| > 0
  }

  /** The rule list after an install: the flag replaces the stored one. */
  function Wanted(w: World, flag: Option<seq<string>>): seq<string> {
    if flag.Some? then flag.value else if w.stored.Some? then w.stored.value.rules else []
  }

  /** The entry after an install. */
  function WantedEntry(w: World, image: string, flag: Option<seq<string>>): Entry {
    Entry(if image != "" then image else if w.stored.Some? && w.stored.value.image != "" then w.stored.value.image else DEFAULT_IMAGE,
          Wanted(w, flag))
  }

  function OldConf(w: World): string {
    if w.disk.Some? then w.disk.value.conf else ""
  }

  /** The container is kept and at most reloaded. */
  predicate InPlace(w: World, rules: seq<string>, force: bool) {
    Running(w) && !force && StoredRules(w) == (|rules| > 0)
  }

  function Signalled(w: World): World {
    if w.disk.None? || w.container.None? then w
    else
      var c := w.container.value;
      w.(container := Some(c.(loaded := w.disk.value)), reloads := w.reloads + [Reloaded(c.mounted, w.disk.value)])
  }

  function Stopped(w: World): World {
    if w.container.None? then w else w.(container := Some(w.container.value.(running := false)))
  }

  function Saved(w: World, e: Entry, o: Outcome): World {
    if o.NotSaved? then w else w.(stored := Some(e))
  }

  /** `createContainer`: a new one, with the rules mount only if there are rule files. */
  function Created(w: World, e: Entry, files: Files): World {
    w.(container := Some(Container(w.made, e.image, true, |e.rules| > 0, files)), made := w.made + 1)
  }

  predicate Recreates(w: World, o: Outcome) {
    !(o.NotStopped? && Running(w)) && !(o.NotRemoved? && w.container.Some?) && !o.NotCreated?
  }

  /** `EnsureContainer`, when it fails. */
  function NotRecreated(w: World, o: Outcome): World {
    if o.NotStopped? && Running(w) then w
    else if o.NotRemoved? && w.container.Some? then Stopped(w)
    else w.(container := None)
  }

  /** The container part gets through, given the text that was on disk before. */
  predicate Refreshes(w: World, oldConf: string, files: Files, inPlace: bool, o: Outcome) {
    if inPlace then oldConf == files.conf || !o.NotSignalled? else Recreates(w, o)
  }

  /** The container part, with the new files on disk: reload where that is enough, else recreate. */
  function Refreshed(w: World, oldConf: string, e: Entry, files: Files, inPlace: bool, o: Outcome): World {
    if inPlace then (if oldConf == files.conf || o.NotSignalled? then w else Signalled(w))
    else if Recreates(w, o) then Created(w, e, files)
    else NotRecreated(w, o)
  }

  function Installed(w: World, e: Entry, files: Files, force: bool, o: Outcome): World {
    if o.NotWritten? then w
    else
      var written, inPlace := w.(disk := Some(files)), InPlace(w, e.rules, force);
      var refreshed := Refreshed(written, OldConf(w), e, files, inPlace, o);
      if Refreshes(written, OldConf(w), files, inPlace, o) then Saved(refreshed, e, o) else refreshed
  }

  function Started(w: World, works: bool, removed: bool, created: bool, files: Files): World {
    if w.stored.None? || Running(w) then w
    else if w.container.Some? && works && w.disk.Some? then
      w.(container := Some(w.container.value.(running := true, loaded := w.disk.value)))
    else if w.container.Some? && !removed then w
    else if w.disk.None? || !created then w.(container := None)
    else Created(w.(disk := Some(files)), w.stored.value, files)
  }

  function Step(w: World, c: Command): World {
    match c
    case Install(image, rules, files, force, o) => Installed(w, WantedEntry(w, image, rules), files, force, o)
    case Reload(files, o) =>
      if w.stored.None? || !Running(w) || o.NotWritten? then w
      else if o.NotSignalled? then w.(disk := Some(files))
      else Signalled(w.(disk := Some(files)))
    case Start(works, removed, created, files) => Started(w, works, removed, created, files)
    case Stop => if w.stored.None? then w else Stopped(w)
    case Remove(o) =>
      if w.stored.None? then w
      else if o.NotRemoved? then Stopped(w)
      else
        var gone := w.(container := None, disk := None);
        if o.NotSaved? then gone else gone.(stored := None)
  }

  // --- when a new container is made ----------------------------------------------------------------

  predicate HasRules(w: World) {
    w.stored.Some? && w.stored.value.rules != []
  }

  /** Rule files after the install: those passed, else those stored. */
  predicate AsksRules(w: World, c: Command)
    requires c.Install?
  {
    if c.rules.Some? then c.rules.value != [] else HasRules(w)
  }

  /** None is running, or --force was passed, or rule files appear or disappear. */
  predicate NeedsNew(w: World, c: Command)
    requires c.Install?
  {
    || w.container.None? || !w.container.value.running || c.force
    || HasRules(w) != AsksRules(w, c)
  }

  predicate SameText(w: World, files: Files) {
    if w.disk.Some? then w.disk.value.conf == files.conf else files.conf == ""
  }

  /** An install that completes makes a new container if and only if one is needed, and then with the
      stored image, the mount the rules need, and the new files; otherwise the same container goes
      on, and reads the files exactly if the configuration text changed. */
  lemma CompletedInstall(w: World, c: Command)
    requires c.Install? && c.outcome.Completed?
    ensures var t := Step(w, c);
            && t.disk == Some(c.files) && t.stored.Some? && Running(t)
            && t.stored.value.rules == (if c.rules.Some? then c.rules.value else if w.stored.Some? then w.stored.value.rules else [])
            && (c.image != "" ==> t.stored.value.image == c.image)
            && (c.image == "" && w.stored.Some? && w.stored.value.image != "" ==> t.stored.value.image == w.stored.value.image)
            && (t.made == w.made + 1 <==> NeedsNew(w, c)) && (t.made == w.made <==> !NeedsNew(w, c))
            && if NeedsNew(w, c) then
                 t.container == Some(Container(w.made, t.stored.value.image, true, t.stored.value.rules != [], c.files)) && t.reloads == w.reloads
               else
                 && t.container == Some(w.container.value.(loaded := if SameText(w, c.files) then w.container.value.loaded else c.files))
                 && t.reloads == w.reloads + if SameText(w, c.files) then [] else [Reloaded(w.container.value.mounted, c.files)]
  {
    assert w.reloads + [] == w.reloads;
  }

  /** An install that fails after writing leaves the new files, and of the rest exactly what it had
      not come to: the running container, a stopped one, none, or the stored entry. */
  lemma FailedInstall(w: World, c: Command)
    requires c.Install? && c.outcome !in {Completed, NotWritten}
    ensures var t, written := Step(w, c), w.(disk := Some(c.files));
            if !NeedsNew(w, c) then
              && (c.outcome.NotSignalled? && !SameText(w, c.files) ==> t == written)
              && (c.outcome.NotSaved? ==> t.stored == w.stored && t.made == w.made)
            else
              && (c.outcome.NotStopped? && Running(w) ==> t == written)
              && (c.outcome.NotRemoved? && w.container.Some? ==> t == written.(container := Some(w.container.value.(running := false))))
              && (c.outcome.NotCreated? ==> t == written.(container := None))
              && (c.outcome.NotSaved? ==> t.stored == w.stored && t.made == w.made + 1 && Running(t) && t.container.value.born == w.made)
  {
  }

  /** The other commands, when nothing fails: a reload makes the same container read the new files, a
      start runs what is there or makes a new one, a stop stops, a remove leaves nothing; and all of
      them need a stored entry. */
  lemma CommandsMean(w: World, files: Files)
    ensures w.stored.None? ==>
              forall c: Command :: c.Reload? || c.Start? || c.Stop? || c.Remove? ==> Step(w, c) == w
    ensures w.stored.Some? && Running(w) ==>
              Step(w, Reload(files, Completed)) == w.(disk := Some(files), container := Some(w.container.value.(loaded := files)),
                                                      reloads := w.reloads + [Reloaded(w.container.value.mounted, files)])
    ensures w.stored.Some? && w.container.Some? && !Running(w) && w.disk.Some? ==>
              Step(w, Start(true, true, true, files)) == w.(container := Some(w.container.value.(running := true, loaded := w.disk.value)))
    ensures w.stored.Some? && w.container.None? && w.disk.Some? ==>
              var t := Step(w, Start(true, true, true, files));
              t == w.(disk := Some(files), made := w.made + 1,
                      container := Some(Container(w.made, w.stored.value.image, true, w.stored.value.rules != [], files)))
    ensures w.stored.Some? && w.container.Some? ==>
              Step(w, Stop) == w.(container := Some(w.container.value.(running := false)))
    ensures w.stored.Some? ==>
              var t := Step(w, Remove(Completed)); t.stored.None? && t.container.None? && t.disk.None? && t.made == w.made
  {
  }

  /** The running container is of the stored image. */
  predicate ImageAgrees(w: World) {
    w.container.Some? && w.stored.Some? ==> w.container.value.image == w.stored.value.image
  }

  /** The image asked for: the one passed, else the stored one, else the default. */
  function AskedImage(w: World, c: Command): string
    requires c.Install?
  {
    if c.image != "" then c.image
    else if w.stored.Some? && w.stored.value.image != "" then w.stored.value.image
    else DEFAULT_IMAGE
  }

  /** An install that keeps a container of another image and is saved, or makes one of another image
      than the stored entry's and is not. */
  predicate ImageDrifts(w: World, c: Command) {
    && c.Install? && !c.outcome.NotWritten?
    && if NeedsNew(w, c) then
         Recreates(w, c.outcome) && c.outcome.NotSaved? && w.stored.Some? && AskedImage(w, c) != w.stored.value.image
       else
         && !c.outcome.NotSaved? && (SameText(w, c.files) || !c.outcome.NotSignalled?)
         && AskedImage(w, c) != w.container.value.image
  }

  /** Container and stored entry have the same image after a step, unless it is one of those: --image
      without --force on a running container does not take effect. */
  lemma ImageExact(w: World, c: Command)
    requires ImageAgrees(w)
    ensures ImageAgrees(Step(w, c)) <==> !ImageDrifts(w, c)
  {
    if c.Install? { InstallImageExact(w, c); }
  }

  lemma InstallImageExact(w: World, c: Command)
    requires ImageAgrees(w) && c.Install?
    ensures ImageAgrees(Step(w, c)) <==> !ImageDrifts(w, c)
  {
    assert InPlace(w, Wanted(w, c.rules), c.force) <==> !NeedsNew(w, c);
    assert WantedEntry(w, c.image, c.rules).image == AskedImage(w, c);
  }

  lemma ImageAgreesThroughout(commands: seq<Command>)
    requires AllOk(Step, (w, c) => !ImageDrifts(w, c), NOTHING, commands)
    ensures ImageAgrees(Run(Step, NOTHING, commands))
  {
    var ok := (w, c) => !ImageDrifts(w, c);
    forall w, c | ImageAgrees(w) && ok(w, c)
      ensures ImageAgrees(Step(w, c))
    {
      ImageExact(w, c);
    }
    RunKeeps(Step, ok, ImageAgrees, NOTHING, commands);
  }

  /** From nothing: an install, and then another image without --force. */
  lemma NewImageIsNotRun(x: string, y: string, files: Files)
    requires x != y && x != "" && y != ""
    ensures var first, second := Install(x, None, files, false, Completed), Install(y, None, files, false, Completed);
            var w := Run(Step, NOTHING, [first, second]);
            w.stored.Some? && w.stored.value.image == y && Running(w) && w.container.value.image == x
  {
    RunOfTwo(Step, (w, c) => Honest(w, c), NOTHING, Install(x, None, files, false, Completed), Install(y, None, files, false, Completed));
  }

  // --- the mount -------------------------------------------------------------------------------------

  /** The container has the rules mount exactly when the stored entry has rule files. */
  predicate MountAgrees(w: World) {
    w.container.Some? ==> w.container.value.mounted == StoredRules(w)
  }

  /** Rule copies are written exactly when there are rule files. */
  predicate Honest(w: World, c: Command) {
    match c
    case Install(_, _, files, _, _) => files.rules == map[] <==> !AsksRules(w, c)
    case Reload(files, _) => files.rules == map[] <==> !StoredRules(w)
    case Start(_, _, _, files) => files.rules == map[] <==> !StoredRules(w)
    case _ => true
  }

  /** An install that recreates the container, fails to save, and so leaves the stored entry saying
      something else about rules than the container it made. */
  predicate Unrecorded(w: World, c: Command) {
    && c.Install? && c.outcome.NotSaved?
    && NeedsNew(w, c) && HasRules(w) != AsksRules(w, c)
  }

  /** That is the only step that breaks the agreement. */
  lemma MountExact(w: World, c: Command)
    requires MountAgrees(w)
    ensures MountAgrees(Step(w, c)) <==> !Unrecorded(w, c)
  {
  }

  /** Every reload in place read rules if and only if they were mounted. */
  ghost predicate ReloadsMounted(w: World) {
    forall i :: 0 <= i < |w.reloads| ==> (w.reloads[i].mounted <==> w.reloads[i].files.rules != map[])
  }

  lemma ReloadStep(w: World, c: Command)
    requires MountAgrees(w) && ReloadsMounted(w) && Honest(w, c)
    ensures ReloadsMounted(Step(w, c))
  {
  }

  /** Over every run in which that step does not occur, container and stored entry agree on the
      mount, and a reload in place is only ever used where the mounts are already right. */
  lemma MountAgreesThroughout(commands: seq<Command>)
    requires AllOk(Step, (w, c) => Honest(w, c) && !Unrecorded(w, c), NOTHING, commands)
    ensures var w := Run(Step, NOTHING, commands); MountAgrees(w) && ReloadsMounted(w)
  {
    var ok, inv := (w, c) => Honest(w, c) && !Unrecorded(w, c), w => MountAgrees(w) && ReloadsMounted(w);
    forall w, c | inv(w) && ok(w, c)
      ensures inv(Step(w, c))
    {
      MountExact(w, c);
      ReloadStep(w, c);
    }
    RunKeeps(Step, ok, inv, NOTHING, commands);
  }

  /** A run that needs it: the very first install, with a rule file, whose save fails. */
  lemma UnsavedMountDisagrees(rule: string, files: Files)
    requires files.rules != map[]
    ensures var c := Install("", Some([rule]), files, false, NotSaved);
            && AllOk(Step, (w, c) => Honest(w, c), NOTHING, [c])
            && Running(Run(Step, NOTHING, [c])) && !MountAgrees(Run(Step, NOTHING, [c]))
  {
    RunOfOne(Step, (w, c) => Honest(w, c), NOTHING, Install("", Some([rule]), files, false, NotSaved));
  }

  // --- what the process has read ------------------------------------------------------------------

  /** A running container has read what is on disk. */
  predicate UpToDate(w: World) {
    Running(w) ==> w.disk == Some(w.container.value.loaded)
  }

  /** The files were replaced, the container goes on running, and it is not made to read them: the
      command failed in between, or the configuration text is the same and only rule files changed. */
  predicate Unread(w: World, c: Command) {
    && Running(w)
    && match c
       case Install(_, _, files, _, o) =>
         && !o.NotWritten? && w.container.value.loaded != files
         && if NeedsNew(w, c) then o.NotStopped? else SameText(w, files) || o.NotSignalled?
       case Reload(files, o) => w.stored.Some? && o.NotSignalled? && w.container.value.loaded != files
       case _ => false
  }

  lemma UpToDateExact(w: World, c: Command)
    requires UpToDate(w)
    ensures UpToDate(Step(w, c)) <==> !Unread(w, c)
  {
  }

  /** A container that is left behind stays behind: repeating the install finds the file unchanged,
      reports success, and never signals. */
  lemma RepeatDoesNotReload(w: World, c: Command, again: Outcome)
    requires c.Install? && !NeedsNew(w, c) && !SameText(w, c.files) && c.outcome.NotSignalled? && !again.NotWritten?
    ensures var t := Step(Step(w, c), Install(c.image, c.rules, c.files, c.force, again));
            t.container == w.container && t.made == w.made && t.reloads == w.reloads
  {
  }

  /** Runs that leave one behind: an install that edits a rule file under an unchanged
      configuration and completes, and an install whose signal fails, repeated. */
  lemma EditedRuleIsNotRead(conf: string, name: string, old_: string, new_: string)
    requires old_ != new_
    ensures var first := Install("", Some([name]), Files(conf, map[name := old_]), false, Completed);
            var edit := Install("", None, Files(conf, map[name := new_]), false, Completed);
            var w := Run(Step, NOTHING, [first, edit]);
            && AllOk(Step, (w, c) => Honest(w, c), NOTHING, [first, edit])
            && !UpToDate(w) && w.disk == Some(edit.files) && w.container.value.loaded == first.files
  {
    var first := Install("", Some([name]), Files(conf, map[name := old_]), false, Completed);
    var edit := Install("", None, Files(conf, map[name := new_]), false, Completed);
    assert first.files.rules[name] != edit.files.rules[name];
    assert name in first.files.rules && name in edit.files.rules;
    RunOfTwo(Step, (w, c) => Honest(w, c), NOTHING, first, edit);
  }

  lemma FailedSignalIsNotRepeated(a: string, b: string)
    requires a != b
    ensures var first := Install("", None, Files(a, map[]), false, Completed);
            var failed := Install("", None, Files(b, map[]), false, NotSignalled);
            var again := Install("", None, Files(b, map[]), false, Completed);
            !UpToDate(Run(Step, NOTHING, [first, failed, again]))
  {
    var first := Install("", None, Files(a, map[]), false, Completed);
    var failed := Install("", None, Files(b, map[]), false, NotSignalled);
    var again := Install("", None, Files(b, map[]), false, Completed);
    RunOfThree(Step, (w, c) => Honest(w, c), NOTHING, first, failed, again);
  }

  /** Otherwise every run keeps a running container up to date. */
  lemma UpToDateThroughout(commands: seq<Command>)
    requires AllOk(Step, (w, c) => !Unread(w, c), NOTHING, commands)
    ensures UpToDate(Run(Step, NOTHING, commands))
  {
    var ok, inv := (w, c) => !Unread(w, c), w => UpToDate(w);
    forall w, c | inv(w) && ok(w, c)
      ensures inv(Step(w, c))
    {
      UpToDateExact(w, c);
    }
    RunKeeps(Step, ok, inv, NOTHING, commands);
  }

  // --- the install as it runs ------------------------------------------------------------------------

  class Instance {
    var disk: Option<Files>
    var stored: Option<Entry>
    var container: Option<Container>
    var made: nat
    ghost var reloads: seq<Reloaded>

    constructor ()
      ensures Seen() == NOTHING
    {
      disk, stored, container, made, reloads := None, None, None, 0, [];
    }

    ghost function Seen(): World
      reads this
    {
      World(disk, stored, container, made, reloads)
    }

    method SignalReload()
      requires disk.Some? && container.Some?
      modifies this
      ensures Seen() == Signalled(old(Seen()))
    {
      reloads := reloads + [Reloaded(container.value.mounted, disk.value)];
      container := Some(container.value.(loaded := disk.value));
    }

    method EnsureContainer(e: Entry, files: Files, o: Outcome) returns (ok: bool)
      modifies this
      ensures ok <==> Recreates(old(Seen()), o)
      ensures Seen() == if ok then Created(old(Seen()), e, files) else NotRecreated(old(Seen()), o)
    {
      if container.Some? && container.value.running {
        if o.NotStopped? { return false; }
        container := Some(container.value.(running := false));
      }
      if container.Some? {
        if o.NotRemoved? { return false; }
        container := None;
      }
      if o.NotCreated? { return false; }
      container, made := Some(Container(made, e.image, true, |e.rules| > 0, files)), made + 1;
      ok := true;
    }

    method Refresh(oldConf: string, e: Entry, files: Files, inPlace: bool, o: Outcome) returns (ok: bool)
      requires disk == Some(files) && (inPlace ==> container.Some?)
      modifies this
      ensures ok <==> Refreshes(old(Seen()), oldConf, files, inPlace, o)
      ensures Seen() == Refreshed(old(Seen()), oldConf, e, files, inPlace, o)
    {
      if !inPlace {
        ok := EnsureContainer(e, files, o);
      } else if oldConf == files.conf {
        ok := true;
      } else {
        ok := !o.NotSignalled?;
        if ok { SignalReload(); }
      }
    }

    method MergeFlags(image: string, flag: Option<seq<string>>) returns (e: Entry, hadRules: bool)
      ensures e == WantedEntry(Seen(), image, flag) && hadRules == StoredRules(Seen())
    {
      e := if stored.Some? then stored.value else Entry("", []);
      hadRules := |e.rules| > 0;
      if flag.Some? { e := e.(rules := flag.value); }
      if image != "" { e := e.(image := image); }
      if e.image == "" { e := e.(image := DEFAULT_IMAGE); }
    }

    /** `runAddonInstallPrometheus`, from the merge of the rule files on. */
    method InstallInstance(image: string, flag: Option<seq<string>>, files: Files, force: bool, o: Outcome)
      modifies this
      ensures Seen() == Step(old(Seen()), Install(image, flag, files, force, o))
    {
      var e, hadRules := MergeFlags(image, flag);
      WriteAndRefresh(e, hadRules, files, force, o);
    }

    method WriteAndRefresh(e: Entry, hadRules: bool, files: Files, force: bool, o: Outcome)
      requires hadRules == StoredRules(Seen())
      modifies this
      ensures Seen() == Installed(old(Seen()), e, files, force, o)
    {
      if o.NotWritten? { return; }
      var oldConf := if disk.Some? then disk.value.conf else "";
      var running := container.Some? && container.value.running;
      var rulesMountChanged := hadRules != (|e.rules| > 0);
      disk := Some(files);
      ghost var written := Seen();
      var ok := Refresh(oldConf, e, files, running && !force && !rulesMountChanged, o);
      assert written == old(Seen()).(disk := Some(files));
      if !ok || o.NotSaved? { return; }
      stored := Some(e);
    }
  }
}

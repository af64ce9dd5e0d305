/** The pass scheduler of the host (CodesPC/Automate/Automate.c): which target file is next, and which
    target of higher priority takes its place. */
module Scheduler {
  import opened Targeting

  const PREPARATION_TIME := 900  // seconds

  /** A target file, and what is scanned of the line buffer if no line is ever stored there. */
  datatype TargetFile = TargetFile(lines: seq<Line>, unset: DateFields)

  /** A target file that was loaded: when its pass begins and ends, in seconds, and the level of its
      mission, where 0 is the most important.  The file itself stands for its path. */
  datatype FileTarget = FileTarget(file: TargetFile, beginning: int, ending: int, priority: nat)

  // ------------------------------------------------------------------------ collision

  /** `checkTimeInTargetPeriod` */
  predicate InPeriod(t: int, target: FileTarget) {
    target.beginning - t < PREPARATION_TIME && t - target.ending < PREPARATION_TIME
  }

  /** `checkTargetsCollision` */
  predicate Collision(a: FileTarget, b: FileTarget) {
    InPeriod(a.beginning, b) || InPeriod(a.ending, b) || InPeriod(b.beginning, a) || InPeriod(b.ending, a)
  }

  /** The instants x of a and y of b are less than the preparation time apart. */
  predicate Near(a: FileTarget, b: FileTarget, x: int, y: int) {
    a.beginning <= x <= a.ending && b.beginning <= y <= b.ending && -PREPARATION_TIME < x - y < PREPARATION_TIME
  }

  /** The test of four end points finds every pair of passes that come too close to each other
      anywhere, also when one contains the other, and no other pair. */
  lemma CollisionMeansNear(a: FileTarget, b: FileTarget)
    requires a.beginning <= a.ending && b.beginning <= b.ending
    ensures Collision(a, b) <==> exists x, y :: Near(a, b, x, y)
    ensures Collision(a, b) <==>
      a.beginning < b.ending + PREPARATION_TIME && b.beginning < a.ending + PREPARATION_TIME
  {
    if Collision(a, b) {
      var x := if b.beginning <= a.beginning then a.beginning
               else if b.beginning <= a.ending then b.beginning else a.ending;
      var y := if x < b.beginning then b.beginning else if x <= b.ending then x else b.ending;
      assert Near(a, b, x, y);
    }
  }

  /** For a pass that ends before it begins this fails, and only for such a pass: the test is right
      about a and every proper pass exactly when a is proper itself. */
  lemma CollisionRightIffProper(a: FileTarget)
    ensures a.beginning <= a.ending <==>
      forall b: FileTarget | b.beginning <= b.ending :: (Collision(a, b) <==> exists x, y :: Near(a, b, x, y))
  {
    if a.beginning <= a.ending {
      forall b: FileTarget | b.beginning <= b.ending
        ensures Collision(a, b) <==> exists x, y :: Near(a, b, x, y)
      {
        CollisionMeansNear(a, b);
      }
    } else {
      var b := a.(ending := a.beginning);
      assert b.beginning <= b.ending && Collision(a, b) && !exists x, y :: Near(a, b, x, y);
    }
  }

  // -------------------------------------------------------------------------- loading

  /** The C library function. */
  type MkTime = DateFields -> int

  /** When a pass with these targets begins; for no targets it is 0. */
  function Beginning(mktime: MkTime, t: seq<Target>): int {
    if t == [] then 0
    else
      var earlier := Beginning(mktime, t[..|t| - 1]);
      if earlier != 0 then earlier else mktime(t[|t| - 1].date)
  }

  /** It is the time of the first target whose time is not 0, and 0 if there is none. */
  lemma {:induction false} BeginningIsFirst(mktime: MkTime, t: seq<Target>) returns (i: nat)
    ensures i <= |t| && forall j | 0 <= j < i :: mktime(t[j].date) == 0
    ensures if i < |t| then Beginning(mktime, t) == mktime(t[i].date) != 0 else Beginning(mktime, t) == 0
  {
    i := 0;
    if t != [] {
      i := BeginningIsFirst(mktime, t[..|t| - 1]);
      if i == |t| - 1 && mktime(t[i].date) == 0 {
        i := |t|;
      }
    }
  }

  function Ending(mktime: MkTime, t: seq<Target>, unset: DateFields): int {
    mktime(if t == [] then unset else t[|t| - 1].date)
  }

  /** `extractTimeFromFile` */
  method ExtractTimeFromFile(mktime: MkTime, file: TargetFile) returns (begin: int, end: int)
    ensures begin == Beginning(mktime, Targets(file.lines))
    ensures end == Ending(mktime, Targets(file.lines), file.unset)
  {
    begin := 0;
    var lastUncommented := file.unset;
    for i := 0 to |file.lines|
      invariant begin == Beginning(mktime, Targets(file.lines[..i]))
      invariant mktime(lastUncommented) == Ending(mktime, Targets(file.lines[..i]), file.unset)
    {
      TargetsStep(file.lines, i);
      var line := file.lines[i];
      if line.Comment? {
        continue;
      } else if begin == 0 {
        begin := mktime(line.target.date);
      }
      lastUncommented := line.target.date;
    }
    assert file.lines[..|file.lines|] == file.lines;
    end := mktime(lastUncommented);
  }

  /** A file as it is loaded. */
  function WithTimes(mktime: MkTime, file: TargetFile, priority: nat): FileTarget {
    var t := Targets(file.lines);
    FileTarget(file, Beginning(mktime, t), Ending(mktime, t, file.unset), priority)
  }

  predicate IsLoaded(mktime: MkTime, target: FileTarget) {
    target == WithTimes(mktime, target.file, target.priority)
  }

  /** The pass of a file ends with its last line that is no comment. */
  lemma EndsWithLastLine(mktime: MkTime, target: FileTarget, i: nat)
    requires IsLoaded(mktime, target) && i < |target.file.lines| && target.file.lines[i].Entry?
    requires forall j | i < j < |target.file.lines| :: target.file.lines[j].Comment?
    ensures target.ending == mktime(target.file.lines[i].target.date)
  {
    CommentsAddNothing(target.file.lines, i + 1);
    EntryIsLoaded(target.file.lines[..i + 1], i);
  }

  /** It begins with the first one, if the time of that is not 0. */
  lemma BeginsWithFirstLine(mktime: MkTime, target: FileTarget, i: nat)
    requires IsLoaded(mktime, target) && i < |target.file.lines| && target.file.lines[i].Entry?
    requires forall j | 0 <= j < i :: target.file.lines[j].Comment?
    requires mktime(target.file.lines[i].target.date) != 0
    ensures target.beginning == mktime(target.file.lines[i].target.date)
  {
    var lines := target.file.lines;
    CommentsAddNothing(lines[..i], 0);
    EntryIsLoaded(lines, i);
    var first := BeginningIsFirst(mktime, Targets(lines));
  }

  function Files(mktime: MkTime, files: seq<TargetFile>, priority: nat): (t: seq<FileTarget>)
    ensures |t| == |files|
    ensures forall i | 0 <= i < |t| :: t[i].priority == priority && IsLoaded(mktime, t[i])
  {
    if files == [] then []
    else Files(mktime, files[..|files| - 1], priority) + [WithTimes(mktime, files[|files| - 1], priority)]
  }

  /** The targets of all missions, the most important mission first. */
  function Loaded(mktime: MkTime, missions: seq<seq<TargetFile>>): (t: seq<FileTarget>)
    ensures forall i | 0 <= i < |t| :: t[i].priority < |missions| && IsLoaded(mktime, t[i])
    ensures forall i, j | 0 <= i < j < |t| :: t[i].priority <= t[j].priority
  {
    if missions == [] then []
    else
      var n := |missions| - 1;
      Loaded(mktime, missions[..n]) + Files(mktime, missions[n], n)
  }

  /** Number of files in these missions. */
  function Total(missions: seq<seq<TargetFile>>): nat {
    if missions == [] then 0 else Total(missions[..|missions| - 1]) + |missions[|missions| - 1]|
  }

  lemma {:induction false} FileAt(mktime: MkTime, files: seq<TargetFile>, priority: nat, j: nat)
    requires j < |files|
    ensures Files(mktime, files, priority)[j].file == files[j]
  {
    if j < |files| - 1 {
      FileAt(mktime, files[..|files| - 1], priority, j);
    }
  }

  lemma {:induction false} LoadedTotal(mktime: MkTime, missions: seq<seq<TargetFile>>)
    ensures |Loaded(mktime, missions)| == Total(missions)
  {
    if missions != [] {
      LoadedTotal(mktime, missions[..|missions| - 1]);
    }
  }

  lemma {:induction false} LastMissionLoaded(mktime: MkTime, missions: seq<seq<TargetFile>>, n: nat, j: nat)
    requires |missions| == n + 1 && j < |missions[n]|
    ensures var t, p := Loaded(mktime, missions), Total(missions[..n]) + j;
            p < |t| && t[p].file == missions[n][j] && t[p].priority == n
  {
    LoadedTotal(mktime, missions[..n]);
    FileAt(mktime, missions[n], n, j);
  }

  lemma {:induction false} LoadedBefore(mktime: MkTime, missions: seq<seq<TargetFile>>, n: nat, p: nat)
    requires |missions| == n + 1 && p < |Loaded(mktime, missions[..n])|
    ensures p < |Loaded(mktime, missions)| && Loaded(mktime, missions)[p] == Loaded(mktime, missions[..n])[p]
  {
  }

  /** File j of mission i is loaded behind those of the missions before, and at the level of its
      mission. */
  predicate IsLoadedAt(mktime: MkTime, missions: seq<seq<TargetFile>>, i: nat, j: nat)
    requires i < |missions| && j < |missions[i]|
  {
    var t, p := Loaded(mktime, missions), Total(missions[..i]) + j;
    p < |t| && t[p].file == missions[i][j] && t[p].priority == i
  }

  lemma {:induction false} StaysLoaded(mktime: MkTime, earlier: seq<seq<TargetFile>>, last: seq<TargetFile>, i: nat,
                                       j: nat)
    requires i < |earlier| && j < |earlier[i]| && IsLoadedAt(mktime, earlier, i, j)
    ensures IsLoadedAt(mktime, earlier + [last], i, j)
  {
    assert (earlier + [last])[..|earlier|] == earlier;
    assert (earlier + [last])[..i] == earlier[..i];
    LoadedBefore(mktime, earlier + [last], |earlier|, Total(earlier[..i]) + j);
  }

  /** So is every file of every mission; by `LoadedTotal` nothing else is. */
  lemma {:induction false} EveryFileLoaded(mktime: MkTime, missions: seq<seq<TargetFile>>, i: nat, j: nat)
    requires i < |missions| && j < |missions[i]|
    ensures IsLoadedAt(mktime, missions, i, j)
  {
    var n := |missions| - 1;
    if i < n {
      EveryFileLoaded(mktime, missions[..n], i, j);
      StaysLoaded(mktime, missions[..n], missions[n], i, j);
      assert missions == missions[..n] + [missions[n]];
    } else {
      LastMissionLoaded(mktime, missions, n, j);
    }
  }

  /** Begins soon enough to be prepared now. */
  predicate Due(target: FileTarget, now: int) {
    now < target.beginning < now + PREPARATION_TIME
  }

  /** `next` is the due target that begins first, the first loaded of several, or -1 for none. */
  predicate IsNext(targets: seq<FileTarget>, now: int, next: int) {
    && -1 <= next < |targets|
    && (next >= 0 ==> Due(targets[next], now))
    && forall j | 0 <= j < |targets| && Due(targets[j], now) ::
         next >= 0 && (targets[next].beginning < targets[j].beginning
                       || (targets[next].beginning == targets[j].beginning && next <= j))
  }

  /** `loadTargetsFromFile` */
  method LoadTargetsFromFile(targets: array<FileTarget>, mktime: MkTime, tot: nat, priority: nat, file: TargetFile,
                             now: int, next: int)
    returns (tot': nat, next': int)
    requires tot < targets.Length && IsNext(targets[..tot], now, next)
    modifies targets
    ensures tot' == tot + 1
    ensures targets[..tot'] == old(targets[..tot]) + [WithTimes(mktime, file, priority)]
    ensures IsNext(targets[..tot'], now, next')
  {
    ghost var before := targets[..tot];
    var begin, end := ExtractTimeFromFile(mktime, file);
    targets[tot] := FileTarget(file, begin, end, priority);
    next' := next;
    var waiting := targets[tot].beginning - now;
    if 0 < waiting && waiting < PREPARATION_TIME {
      if next < 0 || targets[tot].beginning - targets[next].beginning < 0 {
        next' := tot;
      }
    }
    tot' := tot + 1;
    assert targets[..tot'] == before + [targets[tot]];
    NextSnoc(before, targets[tot], now, next, next');
  }

  lemma NextSnoc(targets: seq<FileTarget>, t: FileTarget, now: int, next: int, next': int)
    requires IsNext(targets, now, next)
    requires next' == if Due(t, now) && (next < 0 || t.beginning < targets[next].beginning) then |targets| else next
    ensures IsNext(targets + [t], now, next')
  {
    var all := targets + [t];
    forall j | 0 <= j < |all| && Due(all[j], now)
      ensures next' >= 0 && (all[next'].beginning < all[j].beginning
                             || (all[next'].beginning == all[j].beginning && next' <= j))
    {
      if j < |targets| {
        assert Due(targets[j], now);
      }
    }
  }

  /** `loadTargetsFromDir` on the files of one mission, in directory order. */
  method LoadTargetsFromDir(targets: array<FileTarget>, mktime: MkTime, tot: nat, priority: nat,
                            files: seq<TargetFile>, now: int, next: int)
    returns (tot': nat, next': int)
    requires tot + |files| <= targets.Length && IsNext(targets[..tot], now, next)
    modifies targets
    ensures tot' == tot + |files|
    ensures targets[..tot'] == old(targets[..tot]) + Files(mktime, files, priority)
    ensures IsNext(targets[..tot'], now, next')
  {
    tot', next' := tot, next;
    for j := 0 to |files|
      invariant tot' == tot + j && targets[..tot'] == old(targets[..tot]) + Files(mktime, files[..j], priority)
      invariant IsNext(targets[..tot'], now, next')
    {
      assert files[..j + 1][..j] == files[..j];
      tot', next' := LoadTargetsFromFile(targets, mktime, tot', priority, files[j], now, next');
    }
    assert files[..|files|] == files;
  }

  /** `updateTargetsTime`: missions in order of importance. */
  method UpdateTargetsTime(targets: array<FileTarget>, mktime: MkTime, missions: seq<seq<TargetFile>>, now: int)
    returns (tot: nat, next: int)
    requires |Loaded(mktime, missions)| <= targets.Length
    modifies targets
    ensures tot <= targets.Length && targets[..tot] == Loaded(mktime, missions)
    ensures IsNext(Loaded(mktime, missions), now, next)
  {
    tot, next := 0, -1;
    for i := 0 to |missions|
      invariant tot <= targets.Length && targets[..tot] == Loaded(mktime, missions[..i])
      invariant IsNext(targets[..tot], now, next)
    {
      LoadedPrefix(mktime, missions, i + 1);
      assert missions[..i + 1][..i] == missions[..i];
      tot, next := LoadTargetsFromDir(targets, mktime, tot, i, missions[i], now, next);
    }
    assert missions[..|missions|] == missions;
  }

  lemma {:induction false} LoadedPrefix(mktime: MkTime, missions: seq<seq<TargetFile>>, i: nat)
    requires i <= |missions|
    ensures |Loaded(mktime, missions[..i])| <= |Loaded(mktime, missions)|
    decreases |missions| - i
  {
    if i < |missions| {
      LoadedPrefix(mktime, missions, i + 1);
      assert missions[..i + 1][..i] == missions[..i];
    } else {
      assert missions[..i] == missions;
    }
  }

  /** A tie for the next target goes to the most important mission. */
  lemma TieGoesToPriority(mktime: MkTime, missions: seq<seq<TargetFile>>, now: int, next: int, j: nat)
    requires IsNext(Loaded(mktime, missions), now, next)
    requires j < |Loaded(mktime, missions)| && Due(Loaded(mktime, missions)[j], now)
    ensures next >= 0
    ensures var t := Loaded(mktime, missions);
            t[next].beginning < t[j].beginning
            || (t[next].beginning == t[j].beginning && t[next].priority <= t[j].priority)
  {
    assert next == j || next < j || Loaded(mktime, missions)[next].beginning < Loaded(mktime, missions)[j].beginning;
  }

  // ----------------------------------------------------------------------- pre-emption

  /** Target i is more important than `next`, comes too close to it and has not begun. */
  predicate Challenges(targets: seq<FileTarget>, i: int, next: int, now: int)
    requires 0 <= i < |targets| && 0 <= next < |targets|
  {
    && targets[i].priority < targets[next].priority
    && Collision(targets[i], targets[next])
    && targets[i].beginning > now
  }

  /** The challenger that the scan finds: the first one loaded. */
  predicate Displaces(targets: seq<FileTarget>, i: int, next: int, now: int)
    requires 0 <= i < |targets| && 0 <= next < |targets|
  {
    Challenges(targets, i, next, now) && forall j | 0 <= j < i :: !Challenges(targets, j, next, now)
  }

  predicate Unchallenged(targets: seq<FileTarget>, next: int, now: int)
    requires 0 <= next < |targets|
  {
    forall i | 0 <= i < |targets| :: !Challenges(targets, i, next, now)
  }

  /** The targets that the recursion went through, one clock reading each: every one displaces the
      one before it, and unless the result is -1 every one is soon enough to be prepared and the last
      one is the result and has no challenger.  With result -1 the last one begins too late. */
  predicate Chain(targets: seq<FileTarget>, clock: nat -> int, k: nat, c: seq<nat>, next: int) {
    && c != [] && (forall m | 0 <= m < |c| :: c[m] < |targets|)
    && (forall m | 0 < m < |c| :: Displaces(targets, c[m], c[m - 1], clock(k + m - 1)))
    && (forall m | 0 < m < |c| && (next >= 0 || m < |c| - 1) :: Due(targets[c[m]], clock(k + m - 1)))
    && if next >= 0 then
         next == c[|c| - 1] && Unchallenged(targets, next, clock(k + |c| - 1))
       else
         next == -1 && |c| >= 2 && targets[c[|c| - 1]].beginning >= clock(k + |c| - 2) + PREPARATION_TIME
  }

  lemma ChainCons(targets: seq<FileTarget>, start: nat, i: nat, clock: nat -> int, k: nat, c: seq<nat>, next: int)
    requires start < |targets| && i < |targets| && Displaces(targets, i, start, clock(k))
    requires Due(targets[i], clock(k)) && Chain(targets, clock, k + 1, c, next) && c[0] == i
    ensures Chain(targets, clock, k, [start] + c, next)
  {
    var d := [start] + c;
    forall m | 0 <= m < |d| ensures d[m] < |targets| {
      if m > 0 {
        assert d[m] == c[m - 1];
      }
    }
    forall m | 0 < m < |d| ensures Displaces(targets, d[m], d[m - 1], clock(k + m - 1)) {
      if m > 1 {
        assert Displaces(targets, c[m - 1], c[m - 2], clock(k + 1 + m - 2));
      }
    }
    forall m | 0 < m < |d| && (next >= 0 || m < |d| - 1) ensures Due(targets[d[m]], clock(k + m - 1)) {
      if m > 1 {
        assert Due(targets[c[m - 1]], clock(k + 1 + m - 2));
      }
    }
  }

  /** `checkForNextTargeting`.  The clock is read again at every level of the recursion, which ends
      because the level of the chosen target decreases. */
  method CheckForNextTargeting(targets: array<FileTarget>, tot: nat, next: int, clock: nat -> int, k: nat)
    returns (next': int, ghost c: seq<nat>)
    requires tot <= targets.Length && next < tot
    ensures next < 0 ==> next' == next
    ensures next >= 0 ==> Chain(targets[..tot], clock, k, c, next') && c[0] == next
    decreases if next < 0 then 0 else targets[next].priority
  {
    next', c := next, [];
    if next < 0 {
      return;
    }
    c := [next];
    var now := clock(k);
    for i := 0 to tot
      invariant next' == next && c == [next]
      invariant forall j | 0 <= j < i :: !Challenges(targets[..tot], j, next, now)
    {
      if i != next && targets[i].priority < targets[next].priority
         && Collision(targets[i], targets[next]) && targets[i].beginning - now > 0 {
        assert Displaces(targets[..tot], i, next, now);
        if targets[i].beginning - now < PREPARATION_TIME {
          next', c := CheckForNextTargeting(targets, tot, i, clock, k + 1);
          ChainCons(targets[..tot], next, i, clock, k, c, next');
          c := [next] + c;
          return;
        }
        next', c := -1, [next, i];
        return;
      }
    }
  }

  /** The recursion is no deeper than there are levels above the first target's. */
  lemma {:induction false} LevelsFall(targets: seq<FileTarget>, clock: nat -> int, k: nat, c: seq<nat>, next: int,
                                      m: nat)
    requires Chain(targets, clock, k, c, next) && m < |c|
    ensures targets[c[m]].priority + m <= targets[c[0]].priority
  {
    if m > 0 {
      LevelsFall(targets, clock, k, c, next, m - 1);
      assert Displaces(targets, c[m], c[m - 1], clock(k + m - 1));
    }
  }

  predicate AllProper(targets: seq<FileTarget>) {
    forall i | 0 <= i < |targets| :: targets[i].beginning <= targets[i].ending
  }

  /** More than the preparation time lies between the end of one pass and the beginning of the other,
      or just that. */
  predicate Apart(a: FileTarget, b: FileTarget) {
    a.beginning >= b.ending + PREPARATION_TIME || b.beginning >= a.ending + PREPARATION_TIME
  }

  /** No more important pass that begins after now is close to this one. */
  predicate OnItsOwn(targets: seq<FileTarget>, next: nat, now: int)
    requires next < |targets|
  {
    forall i | 0 <= i < |targets| && targets[i].priority < targets[next].priority && targets[i].beginning > now ::
      Apart(targets[i], targets[next])
  }

  lemma UnchallengedIffOnItsOwn(targets: seq<FileTarget>, next: nat, now: int)
    requires next < |targets| && AllProper(targets)
    ensures Unchallenged(targets, next, now) <==> OnItsOwn(targets, next, now)
  {
    forall i | 0 <= i < |targets|
      ensures Challenges(targets, i, next, now)
        <==> targets[i].priority < targets[next].priority && targets[i].beginning > now
             && !Apart(targets[i], targets[next])
    {
      CollisionMeansNear(targets[i], targets[next]);
    }
  }

  /** The first choice is kept exactly if no more important pass that has not begun is close to it. */
  lemma KeptIffOnItsOwn(targets: seq<FileTarget>, clock: nat -> int, k: nat, c: seq<nat>, next: int)
    requires Chain(targets, clock, k, c, next) && AllProper(targets)
    ensures OnItsOwn(targets, c[0], clock(k)) ==> c == [c[0]]
    ensures next == c[0] <==> OnItsOwn(targets, c[0], clock(k))
  {
    UnchallengedIffOnItsOwn(targets, c[0], clock(k));
    if |c| > 1 {
      assert Displaces(targets, c[1], c[0], clock(k));
      LevelsFall(targets, clock, k, c, next, |c| - 1);
    }
  }

  /** Every displaced pass comes within the preparation time of the more important one that displaces
      it, which begins after the reading of the clock. */
  lemma ChainIsNear(targets: seq<FileTarget>, clock: nat -> int, k: nat, c: seq<nat>, next: int, m: nat)
    requires Chain(targets, clock, k, c, next) && AllProper(targets) && 0 < m < |c|
    ensures var a, b := targets[c[m]], targets[c[m - 1]];
            && a.priority < b.priority && a.beginning > clock(k + m - 1)
            && exists x, y :: Near(a, b, x, y)
  {
    assert Displaces(targets, c[m], c[m - 1], clock(k + m - 1));
    CollisionMeansNear(targets[c[m]], targets[c[m - 1]]);
  }

  /** With a clock that stands still, a result that is no -1 begins within the preparation time, and
      nothing that begins after now and is more important comes too close to it. */
  lemma ChosenAtOneInstant(targets: seq<FileTarget>, now: int, clock: nat -> int, k: nat, c: seq<nat>, next: int)
    requires Chain(targets, clock, k, c, next) && next >= 0 && (forall r :: clock(r) == now)
    requires Due(targets[c[0]], now)
    ensures next < |targets| && Due(targets[next], now)
    ensures forall i | 0 <= i < |targets| && targets[i].beginning > now && Collision(targets[i], targets[next]) ::
      targets[next].priority <= targets[i].priority
  {
    forall i | 0 <= i < |targets| && targets[i].beginning > now && Collision(targets[i], targets[next])
      ensures targets[next].priority <= targets[i].priority
    {
      assert !Challenges(targets, i, next, clock(k + |c| - 1));
    }
  }

  /** As targets are loaded mission by mission, the challenger that is found is one of the most
      important ones. */
  lemma MostImportantDisplaces(mktime: MkTime, missions: seq<seq<TargetFile>>, i: int, j: int, next: int, now: int)
    requires var t := Loaded(mktime, missions);
             && 0 <= i < |t| && 0 <= j < |t| && 0 <= next < |t|
             && Displaces(t, i, next, now) && Challenges(t, j, next, now)
    ensures Loaded(mktime, missions)[i].priority <= Loaded(mktime, missions)[j].priority
  {
    assert i <= j;
  }

  lemma {:induction false} ChainsAgree(targets: seq<FileTarget>, clock: nat -> int, k: nat, c: seq<nat>, next: int,
                                       d: seq<nat>, next': int, m: nat)
    requires Chain(targets, clock, k, c, next) && Chain(targets, clock, k, d, next') && c[0] == d[0]
    requires m < |c| && m < |d|
    ensures c[m] == d[m]
  {
    if m > 0 {
      ChainsAgree(targets, clock, k, c, next, d, next', m - 1);
      assert Displaces(targets, c[m], c[m - 1], clock(k + m - 1));
      assert Displaces(targets, d[m], d[m - 1], clock(k + m - 1));
    }
  }

  lemma ChainNoShorter(targets: seq<FileTarget>, clock: nat -> int, k: nat, c: seq<nat>, next: int,
                       d: seq<nat>, next': int)
    requires Chain(targets, clock, k, c, next) && Chain(targets, clock, k, d, next') && c[0] == d[0]
    ensures |d| <= |c|
  {
    var m := |c| - 1;
    assert |c| < |d| ==> Displaces(targets, d[m + 1], d[m], clock(k + m));
    assert |c| < |d| && m > 0 ==> Due(targets[d[m]], clock(k + m - 1));
    if |c| < |d| {
      ChainsAgree(targets, clock, k, c, next, d, next', m);
    }
  }

  lemma SameEnd(targets: seq<FileTarget>, clock: nat -> int, k: nat, c: seq<nat>, next: int, next': int)
    requires Chain(targets, clock, k, c, next) && Chain(targets, clock, k, c, next')
    ensures next == next'
  {
    var m := |c| - 1;
    assert next >= 0 && m > 0 ==> Due(targets[c[m]], clock(k + m - 1));
    assert next' >= 0 && m > 0 ==> Due(targets[c[m]], clock(k + m - 1));
  }

  /** The chain, and with it the result, is determined by the targets and the clock. */
  lemma ChainUnique(targets: seq<FileTarget>, clock: nat -> int, k: nat, c: seq<nat>, next: int,
                    d: seq<nat>, next': int)
    requires Chain(targets, clock, k, c, next) && Chain(targets, clock, k, d, next') && c[0] == d[0]
    ensures c == d && next == next'
  {
    ChainNoShorter(targets, clock, k, c, next, d, next');
    ChainNoShorter(targets, clock, k, d, next', c, next);
    forall m | 0 <= m < |c| ensures c[m] == d[m] {
      ChainsAgree(targets, clock, k, c, next, d, next', m);
    }
    assert c == d;
    SameEnd(targets, clock, k, c, next, next');
  }

  // ----------------------------------------------------------- selection and pre-emption

  /** Clock readings never go back. */
  ghost predicate Monotone(clock: nat -> int) {
    forall r: nat, t: nat | r <= t :: clock(r) <= clock(t)
  }

  /** Every more important proper pass that begins after the last reading begins long enough after
      the end of the chosen one to be prepared then. */
  predicate LeavesRoom(targets: seq<FileTarget>, next: int, last: int)
    requires 0 <= next < |targets|
  {
    forall i | 0 <= i < |targets| && targets[i].priority < targets[next].priority
               && last < targets[i].beginning <= targets[i].ending ::
      targets[i].beginning >= targets[next].ending + PREPARATION_TIME
  }

  /** Nothing more important than the chosen proper pass is missed while it is carried out. */
  lemma ChosenLeavesRoom(targets: seq<FileTarget>, clock: nat -> int, k: nat, c: seq<nat>, next: int, before: int)
    requires Chain(targets, clock, k, c, next) && next >= 0 && Monotone(clock)
    requires before <= clock(k) && Due(targets[c[0]], before)
    requires targets[next].beginning <= targets[next].ending
    ensures LeavesRoom(targets, next, clock(k + |c| - 1))
  {
    var last := clock(k + |c| - 1);
    assert targets[next].beginning < last + PREPARATION_TIME by {
      assert |c| > 1 ==> Due(targets[c[|c| - 1]], clock(k + |c| - 2));
    }
    forall i | 0 <= i < |targets| && targets[i].priority < targets[next].priority
               && last < targets[i].beginning <= targets[i].ending
      ensures targets[i].beginning >= targets[next].ending + PREPARATION_TIME
    {
      assert !Challenges(targets, i, next, last);
      CollisionMeansNear(targets[i], targets[next]);
    }
  }

  /** The clock shows times after the epoch. */
  ghost predicate AfterEpoch(clock: nat -> int) {
    forall r: nat :: clock(r) >= 0
  }

  /** A file without targets is never chosen: a pass is chosen only ahead of its beginning, and the
      beginning of such a file is 0. */
  lemma ChosenHasTargets(mktime: MkTime, targets: seq<FileTarget>, clock: nat -> int, k: nat, c: seq<nat>, next: int,
                         before: int)
    requires Chain(targets, clock, k, c, next) && next >= 0 && AfterEpoch(clock)
    requires before >= 0 && Due(targets[c[0]], before) && IsLoaded(mktime, targets[next])
    ensures Targets(targets[next].file.lines) != []
  {
    assert targets[next].beginning > 0 by {
      assert |c| > 1 ==> Displaces(targets, c[|c| - 1], c[|c| - 2], clock(k + |c| - 2));
    }
  }

  /** One turn of the main loop up to its decision: reading 0 of the clock loads and selects, the
      later ones check.  `start` is the first choice and c what pre-emption made of it. */
  method ChooseTarget(targets: array<FileTarget>, mktime: MkTime, missions: seq<seq<TargetFile>>, clock: nat -> int)
    returns (tot: nat, next: int, ghost start: int, ghost c: seq<nat>)
    requires |Loaded(mktime, missions)| <= targets.Length
    modifies targets
    ensures tot <= targets.Length && targets[..tot] == Loaded(mktime, missions)
    ensures IsNext(Loaded(mktime, missions), clock(0), start)
    ensures if start < 0 then next == -1 else Chain(Loaded(mktime, missions), clock, 1, c, next) && c[0] == start
    ensures -1 <= next < tot
    ensures next >= 0 && Monotone(clock) && targets[next].beginning <= targets[next].ending ==>
      LeavesRoom(Loaded(mktime, missions), next, clock(|c|))
    ensures next >= 0 && AfterEpoch(clock) ==> Targets(targets[next].file.lines) != []
  {
    tot, next := UpdateTargetsTime(targets, mktime, missions, clock(0));
    start := next;
    next, c := CheckForNextTargeting(targets, tot, next, clock, 1);
    if next >= 0 && Monotone(clock) && targets[next].beginning <= targets[next].ending {
      ChosenLeavesRoom(Loaded(mktime, missions), clock, 1, c, next, clock(0));
    }
    if next >= 0 && AfterEpoch(clock) {
      assert targets[next] == Loaded(mktime, missions)[next];
      ChosenHasTargets(mktime, Loaded(mktime, missions), clock, 1, c, next, clock(0));
    }
  }
}

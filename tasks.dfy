/** The task aggregator (`tasks_from_bmrun_path`): it walks the files of a
    benchmark run, loads an evaluation for every run manifest it meets and
    groups the evaluations into one `Task` per environment id. The directory
    walk is given as a sequence of (root, file names) entries in visiting
    order, and the result loader is a function parameter. */
module Tasks {
  import opened Evaluations
  import opened Paths

  /** File names with this suffix mark the root of one training run. */
  const MANIFEST_SUFFIX: string := "manifest.json"

  /** One step of the directory walk: a directory and the files in it. */
  datatype WalkEntry = WalkEntry(root: string, fnames: seq<string>)

  /** `Evaluation.from_training_dir`: the results loaded from a directory. */
  type Loader = string -> Evaluation

  /** Which directory the loader is given for a manifest `fname` found under `root`. */
  type DirChoice = (string, string) -> string

  /** The choice the code makes: the dirname of the bare file name. */
  function DirnameOfFileName(root: string, fname: string): string
  {
    Dirname(fname)
  }

  /** The evidently intended choice: the directory the manifest was found in. */
  function WalkRoot(root: string, fname: string): string
  {
    root
  }

  /** All evaluations of one environment id, grouped together. */
  class Task {
    const envId: string
    var evaluations: seq<Evaluation>

    constructor (envId: string, evaluations: seq<Evaluation>)
      ensures this.envId == envId && this.evaluations == evaluations
    {
      this.envId := envId;
      this.evaluations := evaluations;
    }
  }

  // ---------------------------------------------------------------------
  // Specification of the scan

  /** The (root, file name) pairs of the manifests among `fnames`, in order. */
  function ManifestsIn(root: string, fnames: seq<string>): seq<(string, string)>
  {
    if fnames == [] then []
    else
      var last := fnames[|fnames| - 1];
      ManifestsIn(root, fnames[..|fnames| - 1])
        + (if EndsWith(last, MANIFEST_SUFFIX) then [(root, last)] else [])
  }

  /** The manifests of a whole walk, in visiting order. */
  function Manifests(walk: seq<WalkEntry>): seq<(string, string)>
  {
    if walk == [] then []
    else
      var last := walk[|walk| - 1];
      Manifests(walk[..|walk| - 1]) + ManifestsIn(last.root, last.fnames)
  }

  /** The evaluation loaded for each manifest. */
  function LoadAll(manifests: seq<(string, string)>, load: Loader, dirOf: DirChoice): seq<Evaluation>
  {
    seq(|manifests|, i requires 0 <= i < |manifests| => load(dirOf(manifests[i].0, manifests[i].1)))
  }

  /** Append `e` to the group of its environment id, creating the group on first sight. */
  function AddEvaluation(groups: map<string, seq<Evaluation>>, e: Evaluation): map<string, seq<Evaluation>>
  {
    if e.envId in groups then groups[e.envId := groups[e.envId] + [e]] else groups[e.envId := [e]]
  }

  /** The groups built by adding the evaluations one after the other. */
  function Group(evs: seq<Evaluation>): map<string, seq<Evaluation>>
  {
    if evs == [] then map[] else AddEvaluation(Group(evs[..|evs| - 1]), evs[|evs| - 1])
  }

  /** Reference definition of one group: the evaluations with that id, in order. */
  function WithEnv(evs: seq<Evaluation>, envId: string): seq<Evaluation>
  {
    if evs == [] then []
    else
      var last := evs[|evs| - 1];
      WithEnv(evs[..|evs| - 1], envId) + (if last.envId == envId then [last] else [])
  }

  /** The environment ids that occur among the evaluations. */
  function EnvIds(evs: seq<Evaluation>): set<string>
  {
    set e | e in evs :: e.envId
  }

  /** The number of evaluations over all groups. */
  ghost function TotalEvaluations(groups: map<string, seq<Evaluation>>): nat
    decreases |groups|
  {
    if groups == map[] then 0
    else
      var k :| k in groups;
      assert |groups - {k}| < |groups| by {
        assert (groups - {k}).Keys == groups.Keys - {k};
      }
      |groups[k]| + TotalEvaluations(groups - {k})
  }

  // ---------------------------------------------------------------------
  // The scan

  /** Every task sits under its own environment id (so distinct keys hold
      distinct tasks). */
  ghost predicate Keyed(tasks: map<string, Task>)
  {
    forall k :: k in tasks ==> tasks[k].envId == k
  }

  /** The evaluation lists of the tasks. */
  ghost function Contents(tasks: map<string, Task>): map<string, seq<Evaluation>>
    reads tasks.Values
  {
    map k | k in tasks :: tasks[k].evaluations
  }

  /** Find or create the task of the evaluation's environment id and append
      the evaluation to its list. */
  method AddToTask(tasks: map<string, Task>, evaluation: Evaluation) returns (updated: map<string, Task>)
    requires Keyed(tasks)
    modifies tasks.Values
    ensures Keyed(updated)
    ensures forall k :: k in tasks ==> k in updated && updated[k] == tasks[k]
    ensures forall t :: t in updated.Values ==> t in tasks.Values || fresh(t)
    ensures Contents(updated) == AddEvaluation(old(Contents(tasks)), evaluation)
  {
    ghost var before := Contents(tasks);
    var envId := evaluation.envId;
    updated := tasks;
    if envId !in updated {
      var created := new Task(envId, []);
      updated := updated[envId := created];
    }
    var task := updated[envId];
    task.evaluations := task.evaluations + [evaluation];
    ghost var target := AddEvaluation(before, evaluation);
    assert Contents(updated).Keys == target.Keys;
    forall k | k in updated
      ensures Contents(updated)[k] == target[k]
    {
      if k != envId {
        assert updated[k] == tasks[k] && updated[k] != task;
      }
    }
  }

  /** The inner loop of `tasks_from_bmrun_path`: the files of one directory
      of the walk, added to the tasks built from the manifests `done` found
      before it. */
  method ScanEntry(tasks: map<string, Task>, root: string, fnames: seq<string>, ghost done: seq<(string, string)>,
                   load: Loader, dirOf: DirChoice) returns (updated: map<string, Task>)
    requires Keyed(tasks)
    requires Contents(tasks) == Group(LoadAll(done, load, dirOf))
    modifies tasks.Values
    ensures Keyed(updated)
    ensures forall t :: t in updated.Values ==> t in tasks.Values || fresh(t)
    ensures Contents(updated) == Group(LoadAll(done + ManifestsIn(root, fnames), load, dirOf))
  {
    updated := tasks;
    var j := 0;
    ScanStart(done, root, fnames, load, dirOf);
    while j < |fnames|
      invariant 0 <= j <= |fnames|
      invariant Keyed(updated)
      invariant forall t :: t in updated.Values ==> t in tasks.Values || fresh(t)
      invariant Contents(updated) == Group(LoadAll(done + ManifestsIn(root, fnames[..j]), load, dirOf))
    {
      var fname := fnames[j];
      ScanStep(done, root, fnames, j, load, dirOf);
      if EndsWith(fname, MANIFEST_SUFFIX) {
        var trainingDir := dirOf(root, fname);
        var evaluation := load(trainingDir);
        updated := AddToTask(updated, evaluation);
      }
      j := j + 1;
    }
    ScanEnd(done, root, fnames, load, dirOf);
  }

  /** The loops of `tasks_from_bmrun_path`, with the directory handed to the
      loader chosen by `dirOf`. */
  method ScanRun(walk: seq<WalkEntry>, load: Loader, dirOf: DirChoice) returns (tasks: map<string, Task>)
    ensures Keyed(tasks)
    ensures forall t :: t in tasks.Values ==> fresh(t)
    ensures Contents(tasks) == Group(LoadAll(Manifests(walk), load, dirOf))
    ensures Contents(tasks).Keys == EnvIds(LoadAll(Manifests(walk), load, dirOf))
    ensures TotalEvaluations(Contents(tasks)) == |Manifests(walk)|
  {
    tasks := map[];
    var i := 0;
    while i < |walk|
      invariant 0 <= i <= |walk|
      invariant Keyed(tasks)
      invariant forall t :: t in tasks.Values ==> fresh(t)
      invariant Contents(tasks) == Group(LoadAll(Manifests(walk[..i]), load, dirOf))
    {
      ManifestsSnoc(walk, i);
      tasks := ScanEntry(tasks, walk[i].root, walk[i].fnames, Manifests(walk[..i]), load, dirOf);
      i := i + 1;
    }
    assert walk[..|walk|] == walk;
    var evs := LoadAll(Manifests(walk), load, dirOf);
    GroupKeysAndMembers(evs);
    GroupTotal(evs);
  }

  /** `tasks_from_bmrun_path` as written: the loader is given the dirname of
      the bare file name. */
  method TasksFromRunPath(walk: seq<WalkEntry>, load: Loader) returns (tasks: map<string, Task>)
    ensures Keyed(tasks)
    ensures forall t :: t in tasks.Values ==> fresh(t)
    ensures Contents(tasks) == Group(LoadAll(Manifests(walk), load, DirnameOfFileName))
    ensures TotalEvaluations(Contents(tasks)) == |Manifests(walk)|
  {
    tasks := ScanRun(walk, load, DirnameOfFileName);
  }

  /** `tasks_from_bmrun_path` with the loader given the directory of the manifest. */
  method TasksFromRunPathCorrected(walk: seq<WalkEntry>, load: Loader) returns (tasks: map<string, Task>)
    ensures Keyed(tasks)
    ensures forall t :: t in tasks.Values ==> fresh(t)
    ensures Contents(tasks) == Group(LoadAll(Manifests(walk), load, WalkRoot))
    ensures TotalEvaluations(Contents(tasks)) == |Manifests(walk)|
  {
    tasks := ScanRun(walk, load, WalkRoot);
  }

  // ---------------------------------------------------------------------
  // Helper facts for the loop

  lemma ScanEnd(done: seq<(string, string)>, root: string, fnames: seq<string>, load: Loader, dirOf: DirChoice)
    ensures Group(LoadAll(done + ManifestsIn(root, fnames[..|fnames|]), load, dirOf)) == Group(LoadAll(done + ManifestsIn(root, fnames), load, dirOf))
  {
    assert fnames[..|fnames|] == fnames;
  }

  lemma ScanStart(done: seq<(string, string)>, root: string, fnames: seq<string>, load: Loader, dirOf: DirChoice)
    ensures Group(LoadAll(done + ManifestsIn(root, fnames[..0]), load, dirOf)) == Group(LoadAll(done, load, dirOf))
  {
    assert fnames[..0] == [];
    assert done + [] == done;
  }

  /** One file of the inner loop: a manifest adds its evaluation, any other
      file leaves the groups as they are. */
  lemma ScanStep(done: seq<(string, string)>, root: string, fnames: seq<string>, j: nat, load: Loader, dirOf: DirChoice)
    requires j < |fnames|
    ensures Group(LoadAll(done + ManifestsIn(root, fnames[..j + 1]), load, dirOf))
      == if EndsWith(fnames[j], MANIFEST_SUFFIX)
         then AddEvaluation(Group(LoadAll(done + ManifestsIn(root, fnames[..j]), load, dirOf)), load(dirOf(root, fnames[j])))
         else Group(LoadAll(done + ManifestsIn(root, fnames[..j]), load, dirOf))
  {
    ManifestsInSnoc(root, fnames, j);
    var seen := done + ManifestsIn(root, fnames[..j]);
    if EndsWith(fnames[j], MANIFEST_SUFFIX) {
      assert done + ManifestsIn(root, fnames[..j + 1]) == seen + [(root, fnames[j])];
      LoadGroupSnoc(seen, (root, fnames[j]), load, dirOf);
    } else {
      assert done + ManifestsIn(root, fnames[..j + 1]) == seen;
    }
  }

  lemma ManifestsInSnoc(root: string, fnames: seq<string>, j: nat)
    requires j < |fnames|
    ensures ManifestsIn(root, fnames[..j + 1])
      == ManifestsIn(root, fnames[..j]) + (if EndsWith(fnames[j], MANIFEST_SUFFIX) then [(root, fnames[j])] else [])
  {
    assert fnames[..j + 1][..j] == fnames[..j];
  }

  lemma ManifestsSnoc(walk: seq<WalkEntry>, i: nat)
    requires i < |walk|
    ensures Manifests(walk[..i + 1]) == Manifests(walk[..i]) + ManifestsIn(walk[i].root, walk[i].fnames)
  {
    assert walk[..i + 1][..i] == walk[..i];
  }

  /** Each manifest is loaded on its own, in order: loading a concatenation
      of manifest lists loads the first list and then the second. */
  lemma LoadAllAppend(a: seq<(string, string)>, b: seq<(string, string)>, load: Loader, dirOf: DirChoice)
    ensures LoadAll(a + b, load, dirOf) == LoadAll(a, load, dirOf) + LoadAll(b, load, dirOf)
  {
    var whole, left, right := LoadAll(a + b, load, dirOf), LoadAll(a, load, dirOf), LoadAll(b, load, dirOf);
    forall i | 0 <= i < |whole| ensures whole[i] == (left + right)[i] {
      if i >= |a| {
        assert (a + b)[i] == b[i - |a|];
      }
    }
  }

  lemma LoadGroupSnoc(ms: seq<(string, string)>, m: (string, string), load: Loader, dirOf: DirChoice)
    ensures Group(LoadAll(ms + [m], load, dirOf)) == AddEvaluation(Group(LoadAll(ms, load, dirOf)), load(dirOf(m.0, m.1)))
  {
    var evs := LoadAll(ms, load, dirOf);
    LoadAllAppend(ms, [m], load, dirOf);
    assert LoadAll([m], load, dirOf) == [load(dirOf(m.0, m.1))];
    assert (evs + [load(dirOf(m.0, m.1))])[..|evs|] == evs;
  }

  lemma WithEnvSnoc(evs: seq<Evaluation>, e: Evaluation, envId: string)
    ensures WithEnv(evs + [e], envId) == WithEnv(evs, envId) + (if e.envId == envId then [e] else [])
  {
    assert (evs + [e])[..|evs|] == evs;
  }

  // ---------------------------------------------------------------------
  // Properties of the grouping

  /** The groups are exactly the environment ids that occur, and each group
      holds exactly the evaluations with its id, in their original order. */
  lemma {:induction false} GroupIsByEnvId(evs: seq<Evaluation>)
    ensures Group(evs).Keys == EnvIds(evs)
    ensures forall k :: WithEnv(evs, k) == if k in Group(evs) then Group(evs)[k] else []
  {
    if evs != [] {
      var init, e := evs[..|evs| - 1], evs[|evs| - 1];
      GroupIsByEnvId(init);
      GroupSnoc(init, e);
      EnvIdsSnoc(init, e);
      assert evs == init + [e];
      forall k ensures WithEnv(evs, k) == if k in Group(evs) then Group(evs)[k] else [] {
        WithEnvSnoc(init, e, k);
      }
    }
  }

  lemma GroupSnoc(evs: seq<Evaluation>, e: Evaluation)
    ensures Group(evs + [e]) == AddEvaluation(Group(evs), e)
  {
    assert (evs + [e])[..|evs|] == evs;
  }

  lemma EnvIdsSnoc(evs: seq<Evaluation>, e: Evaluation)
    ensures EnvIds(evs + [e]) == EnvIds(evs) + {e.envId}
  {
    forall x | x in evs + [e] ensures x in evs || x == e { }
  }

  lemma {:induction false} WithEnvMembers(evs: seq<Evaluation>, envId: string)
    ensures forall e :: e in WithEnv(evs, envId) <==> e in evs && e.envId == envId
  {
    if evs != [] {
      var init, e := evs[..|evs| - 1], evs[|evs| - 1];
      assert evs == init + [e];
      WithEnvMembers(init, envId);
    }
  }

  /** Every evaluation lands in the group of its own id, and every group
      holds only evaluations of its id. */
  lemma GroupKeysAndMembers(evs: seq<Evaluation>)
    ensures Group(evs).Keys == EnvIds(evs)
    ensures forall k :: k in Group(evs) ==> Group(evs)[k] != []
    ensures forall k, e :: k in Group(evs) && e in Group(evs)[k] ==> e.envId == k && e in evs
    ensures forall e :: e in evs ==> e.envId in Group(evs) && e in Group(evs)[e.envId]
  {
    GroupIsByEnvId(evs);
    forall k | k in Group(evs)
      ensures Group(evs)[k] != []
      ensures forall e :: e in Group(evs)[k] <==> e in evs && e.envId == k
    {
      WithEnvMembers(evs, k);
      var e :| e in evs && e.envId == k;
      assert e in WithEnv(evs, k);
    }
  }

  lemma {:induction false} TotalWithout(groups: map<string, seq<Evaluation>>, k: string)
    requires k in groups
    ensures TotalEvaluations(groups) == |groups[k]| + TotalEvaluations(groups - {k})
    decreases |groups|
  {
    var j :| j in groups && TotalEvaluations(groups) == |groups[j]| + TotalEvaluations(groups - {j});
    if j != k {
      assert (groups - {j}).Keys == groups.Keys - {j};
      assert (groups - {k}).Keys == groups.Keys - {k};
      TotalWithout(groups - {j}, k);
      TotalWithout(groups - {k}, j);
      assert groups - {j} - {k} == groups - {k} - {j};
    }
  }

  /** Adding one evaluation adds one to the total, whether it joins an
      existing group or starts a new one. */
  lemma TotalAddEvaluation(groups: map<string, seq<Evaluation>>, e: Evaluation)
    ensures TotalEvaluations(AddEvaluation(groups, e)) == TotalEvaluations(groups) + 1
  {
    var updated := AddEvaluation(groups, e);
    TotalWithout(updated, e.envId);
    assert updated - {e.envId} == groups - {e.envId};
    if e.envId in groups {
      TotalWithout(groups, e.envId);
    } else {
      assert groups - {e.envId} == groups;
    }
  }

  /** No evaluation is lost or duplicated: the groups hold as many
      evaluations as were added. */
  lemma {:induction false} GroupTotal(evs: seq<Evaluation>)
    ensures TotalEvaluations(Group(evs)) == |evs|
  {
    if evs != [] {
      GroupTotal(evs[..|evs| - 1]);
      TotalAddEvaluation(Group(evs[..|evs| - 1]), evs[|evs| - 1]);
    }
  }

  lemma {:induction false} WithEnvAppend(a: seq<Evaluation>, b: seq<Evaluation>, envId: string)
    ensures WithEnv(a + b, envId) == WithEnv(a, envId) + WithEnv(b, envId)
  {
    if b == [] {
      assert a + b == a;
    } else {
      var init, e := b[..|b| - 1], b[|b| - 1];
      assert a + b == (a + init) + [e];
      assert b == init + [e];
      WithEnvSnoc(a + init, e, envId);
      WithEnvSnoc(init, e, envId);
      WithEnvAppend(a, init, envId);
    }
  }

  /** Later evaluations only ever append: every group of a prefix is a
      prefix of the same group afterwards. */
  lemma GroupOnlyAppends(evs: seq<Evaluation>, more: seq<Evaluation>)
    ensures forall k :: k in Group(evs) ==> k in Group(evs + more) && Group(evs)[k] <= Group(evs + more)[k]
  {
    GroupIsByEnvId(evs);
    GroupIsByEnvId(evs + more);
    forall k | k in Group(evs)
      ensures k in Group(evs + more) && Group(evs)[k] <= Group(evs + more)[k]
    {
      WithEnvAppend(evs, more, k);
      GroupKeysAndMembers(evs);
      var e :| e in Group(evs)[k];
      assert e in evs + more;
      GroupKeysAndMembers(evs + more);
    }
  }

  lemma {:induction false} WithEnvMultiset(evs: seq<Evaluation>, envId: string)
    ensures forall e :: multiset(WithEnv(evs, envId))[e] == if e.envId == envId then multiset(evs)[e] else 0
  {
    if evs != [] {
      var init, last := evs[..|evs| - 1], evs[|evs| - 1];
      assert evs == init + [last];
      WithEnvMultiset(init, envId);
    }
  }

  lemma EnvIdsOfPermutation(evs1: seq<Evaluation>, evs2: seq<Evaluation>)
    requires multiset(evs1) == multiset(evs2)
    ensures EnvIds(evs1) == EnvIds(evs2)
  {
    forall e ensures e in evs1 <==> e in evs2 {
      assert e in evs1 <==> e in multiset(evs1);
      assert e in evs2 <==> e in multiset(evs2);
    }
  }

  lemma WithEnvOfPermutation(evs1: seq<Evaluation>, evs2: seq<Evaluation>, envId: string)
    requires multiset(evs1) == multiset(evs2)
    ensures multiset(WithEnv(evs1, envId)) == multiset(WithEnv(evs2, envId))
  {
    WithEnvMultiset(evs1, envId);
    WithEnvMultiset(evs2, envId);
    forall e ensures multiset(WithEnv(evs1, envId))[e] == multiset(WithEnv(evs2, envId))[e] { }
  }

  /** The visiting order does not matter: the same evaluations in any order
      give the same groups, up to the order within each group. */
  lemma GroupIgnoresOrder(evs1: seq<Evaluation>, evs2: seq<Evaluation>)
    requires multiset(evs1) == multiset(evs2)
    ensures Group(evs1).Keys == Group(evs2).Keys
    ensures forall k :: k in Group(evs1) ==> multiset(Group(evs1)[k]) == multiset(Group(evs2)[k])
  {
    GroupIsByEnvId(evs1);
    GroupIsByEnvId(evs2);
    EnvIdsOfPermutation(evs1, evs2);
    forall k | k in Group(evs1)
      ensures multiset(Group(evs1)[k]) == multiset(Group(evs2)[k])
    {
      WithEnvOfPermutation(evs1, evs2, k);
    }
  }

  // ---------------------------------------------------------------------
  // Properties of the manifest filter

  /** Every manifest comes from the walk and has the manifest suffix. */
  lemma {:induction false} ManifestsAreManifestFiles(walk: seq<WalkEntry>)
    ensures forall m :: m in Manifests(walk) ==>
      EndsWith(m.1, MANIFEST_SUFFIX) && exists i :: 0 <= i < |walk| && walk[i].root == m.0 && m.1 in walk[i].fnames
  {
    if walk != [] {
      var init, last := walk[..|walk| - 1], walk[|walk| - 1];
      ManifestsAreManifestFiles(init);
      ManifestsInAreManifestFiles(last.root, last.fnames);
      forall m | m in Manifests(walk)
        ensures EndsWith(m.1, MANIFEST_SUFFIX) && exists i :: 0 <= i < |walk| && walk[i].root == m.0 && m.1 in walk[i].fnames
      {
        if m in Manifests(init) {
          var i :| 0 <= i < |init| && init[i].root == m.0 && m.1 in init[i].fnames;
          assert walk[i] == init[i];
        } else {
          assert walk[|walk| - 1] == last;
        }
      }
    }
  }

  lemma {:induction false} ManifestsInAreManifestFiles(root: string, fnames: seq<string>)
    ensures forall m :: m in ManifestsIn(root, fnames) ==> m.0 == root && m.1 in fnames && EndsWith(m.1, MANIFEST_SUFFIX)
  {
    if fnames != [] {
      var init := fnames[..|fnames| - 1];
      ManifestsInAreManifestFiles(root, init);
      assert forall f :: f in init ==> f in fnames;
    }
  }

  /** Every file of the walk with the manifest suffix is a manifest. */
  lemma {:induction false} ManifestFilesAreManifests(walk: seq<WalkEntry>, i: nat, j: nat)
    requires i < |walk| && j < |walk[i].fnames|
    requires EndsWith(walk[i].fnames[j], MANIFEST_SUFFIX)
    ensures (walk[i].root, walk[i].fnames[j]) in Manifests(walk)
  {
    var init, last := walk[..|walk| - 1], walk[|walk| - 1];
    if i < |walk| - 1 {
      assert walk[i] == init[i];
      ManifestFilesAreManifests(init, i, j);
    } else {
      ManifestFileInEntry(last.root, last.fnames, j);
    }
  }

  lemma {:induction false} ManifestFileInEntry(root: string, fnames: seq<string>, j: nat)
    requires j < |fnames| && EndsWith(fnames[j], MANIFEST_SUFFIX)
    ensures (root, fnames[j]) in ManifestsIn(root, fnames)
  {
    var init := fnames[..|fnames| - 1];
    if j < |fnames| - 1 {
      assert fnames[j] == init[j];
      ManifestFileInEntry(root, init, j);
    }
  }

  // ---------------------------------------------------------------------
  // The directory handed to the loader

  /** A directory walk lists bare file names. */
  ghost predicate BareNames(walk: seq<WalkEntry>)
  {
    forall i, j :: 0 <= i < |walk| && 0 <= j < |walk[i].fnames| ==> NoSlash(walk[i].fnames[j])
  }

  /** The manifests of a walk over bare names have bare names. */
  lemma ManifestNamesAreBare(walk: seq<WalkEntry>)
    requires BareNames(walk)
    ensures forall m :: m in Manifests(walk) ==> NoSlash(m.1)
  {
    ManifestsAreManifestFiles(walk);
    forall m | m in Manifests(walk) ensures NoSlash(m.1) {
      var i :| 0 <= i < |walk| && walk[i].root == m.0 && m.1 in walk[i].fnames;
      var j :| 0 <= j < |walk[i].fnames| && walk[i].fnames[j] == m.1;
    }
  }

  /** As written, every manifest loads the results of the empty path. */
  lemma AsWrittenLoadsEmptyPath(walk: seq<WalkEntry>, load: Loader)
    requires BareNames(walk)
    ensures var evs := LoadAll(Manifests(walk), load, DirnameOfFileName);
      forall k :: 0 <= k < |evs| ==> evs[k] == load("")
  {
    var ms := Manifests(walk);
    ManifestNamesAreBare(walk);
    forall k | 0 <= k < |ms| ensures DirnameOfFileName(ms[k].0, ms[k].1) == "" {
      assert ms[k] in ms;
      DirnameOfBareName(ms[k].1);
    }
  }

  /** Hence at most one task comes out, however many runs the walk finds. */
  lemma AsWrittenAtMostOneTask(walk: seq<WalkEntry>, load: Loader)
    requires BareNames(walk)
    ensures |Group(LoadAll(Manifests(walk), load, DirnameOfFileName)).Keys| <= 1
  {
    var evs := LoadAll(Manifests(walk), load, DirnameOfFileName);
    AsWrittenLoadsEmptyPath(walk, load);
    GroupIsByEnvId(evs);
    var only := load("").envId;
    assert EnvIds(evs) <= {only} by {
      forall e | e in evs ensures e.envId == only {
        var k :| 0 <= k < |evs| && evs[k] == e;
      }
    }
    if EnvIds(evs) != {} {
      assert EnvIds(evs) == {only};
    }
  }

  /** With the correction, each manifest loads the directory it was found in:
      the dirname of the manifest's full path. */
  lemma CorrectedLoadsManifestDirectory(walk: seq<WalkEntry>, load: Loader)
    requires BareNames(walk)
    requires forall i :: 0 <= i < |walk| ==> walk[i].root != [] && walk[i].root[|walk[i].root| - 1] != '/'
    ensures var ms := Manifests(walk);
      forall k :: 0 <= k < |ms| ==>
        LoadAll(ms, load, WalkRoot)[k] == load(Dirname(ms[k].0 + "/" + ms[k].1))
  {
    var ms := Manifests(walk);
    ManifestsAreManifestFiles(walk);
    forall k | 0 <= k < |ms| ensures LoadAll(ms, load, WalkRoot)[k] == load(Dirname(ms[k].0 + "/" + ms[k].1)) {
      var i :| 0 <= i < |walk| && walk[i].root == ms[k].0 && ms[k].1 in walk[i].fnames;
      var j :| 0 <= j < |walk[i].fnames| && walk[i].fnames[j] == ms[k].1;
      DirnameOfJoined(ms[k].0, ms[k].1);
      assert LoadAll(ms, load, WalkRoot)[k] == load(WalkRoot(ms[k].0, ms[k].1));
    }
  }

  lemma ManifestsOfTwoEntries(root0: string, fname0: string, root1: string, fname1: string)
    requires EndsWith(fname0, MANIFEST_SUFFIX) && EndsWith(fname1, MANIFEST_SUFFIX)
    ensures Manifests([WalkEntry(root0, [fname0]), WalkEntry(root1, [fname1])]) == [(root0, fname0), (root1, fname1)]
  {
    var walk := [WalkEntry(root0, [fname0]), WalkEntry(root1, [fname1])];
    assert [fname0][..0] == [] && [fname1][..0] == [];
    assert ManifestsIn(root0, [fname0]) == [(root0, fname0)];
    assert ManifestsIn(root1, [fname1]) == [(root1, fname1)];
    assert walk[..1][..0] == [];
    assert walk[..1] == [walk[0]];
    assert Manifests(walk[..1]) == [(root0, fname0)];
    assert Manifests(walk) == Manifests(walk[..1]) + ManifestsIn(root1, [fname1]);
  }

  lemma LoadAllOfTwo(m0: (string, string), m1: (string, string), load: Loader, dirOf: DirChoice)
    ensures LoadAll([m0, m1], load, dirOf) == [load(dirOf(m0.0, m0.1)), load(dirOf(m1.0, m1.1))]
  {
  }

  lemma GroupOfTwo(e0: Evaluation, e1: Evaluation)
    ensures Group([e0, e1]).Keys == {e0.envId, e1.envId}
  {
    assert [e0, e1][..1] == [e0];
    assert [e0][..0] == [];
    assert Group([e0]) == map[e0.envId := [e0]];
    assert Group([e0, e1]) == AddEvaluation(Group([e0]), e1);
  }

  /** The example that shows the difference: two runs of different
      environments in two directories. As written they collapse into one
      task; corrected, they make two. */
  lemma TwoRunsExample()
    ensures var walk := [WalkEntry("run/a", ["a.manifest.json"]), WalkEntry("run/b", ["b.manifest.json"])];
      var load: Loader := dir => Evaluation(if dir == "run/a" then "Pong-v0" else "Breakout-v0", [], [], [], [], [], []);
      |Group(LoadAll(Manifests(walk), load, DirnameOfFileName)).Keys| == 1
      && Group(LoadAll(Manifests(walk), load, WalkRoot)).Keys == {"Pong-v0", "Breakout-v0"}
  {
    var walk := [WalkEntry("run/a", ["a.manifest.json"]), WalkEntry("run/b", ["b.manifest.json"])];
    var load: Loader := dir => Evaluation(if dir == "run/a" then "Pong-v0" else "Breakout-v0", [], [], [], [], [], []);
    assert EndsWith("a.manifest.json", MANIFEST_SUFFIX) && EndsWith("b.manifest.json", MANIFEST_SUFFIX);
    ManifestsOfTwoEntries("run/a", "a.manifest.json", "run/b", "b.manifest.json");
    var ms := Manifests(walk);
    DirnameOfBareName("a.manifest.json");
    DirnameOfBareName("b.manifest.json");
    var m0, m1 := ("run/a", "a.manifest.json"), ("run/b", "b.manifest.json");
    LoadAllOfTwo(m0, m1, load, DirnameOfFileName);
    LoadAllOfTwo(m0, m1, load, WalkRoot);
    assert "" != "run/a" && "run/b" != "run/a";
    assert load("").envId == "Breakout-v0" && load("run/b").envId == "Breakout-v0";
    assert load("run/a").envId == "Pong-v0";
    GroupOfTwo(load(""), load(""));
    GroupOfTwo(load("run/a"), load("run/b"));
  }

}

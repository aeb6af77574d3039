/** The profile page (frontend/src/components/Profile.jsx): the ordered skill
    store and its reconciliation against an edited tag list, the level
    slider and per-skill remove control, the form draft, skill detection and
    the submit gate. Every operation is a pure function from the old state
    to the new one. */
module SkillStore {
  import opened Base
  import opened Seqs
  import opened Models

  /** The level a manually tagged skill starts with. */
  const DefaultLevel: Level := 5

  /** The tag list the store is shown as: its names, in order. */
  function Names(store: seq<Skill>): (r: seq<string>)
    ensures |r| == |store| && forall i :: 0 <= i < |store| ==> r[i] == store[i].name
  {
    seq(|store|, i requires 0 <= i < |store| => store[i].name)
  }

  lemma NamesAppend(a: seq<Skill>, b: seq<Skill>)
    ensures Names(a + b) == Names(a) + Names(b)
  {
  }

  /** Records whose name is not in `removed`, in order. */
  function DropNamed(store: seq<Skill>, removed: seq<string>): (r: seq<Skill>)
    ensures forall k :: k in r <==> k in store && k.name !in removed
    decreases |store|
  {
    if |store| == 0 then []
    else (if store[0].name in removed then [] else [store[0]]) + DropNamed(store[1..], removed)
  }

  /** Reference definition of the survivors of a tag edit: the records whose
      name is still a tag, in their original order. */
  function KeepNamed(store: seq<Skill>, tags: seq<string>): (r: seq<Skill>)
    ensures forall k :: k in r <==> k in store && k.name in tags
    ensures IsSubsequence(r, store)
    decreases |store|
  {
    if |store| == 0 then []
    else if store[0].name in tags then
      var rest := KeepNamed(store[1..], tags);
      assert ([store[0]] + rest)[1..] == rest;
      [store[0]] + rest
    else
      var rest := KeepNamed(store[1..], tags);
      DropHead(rest, store);
      rest
  }

  /** A surviving record is kept as many times as the store holds it; a
      record whose name left the tags is kept no times. */
  lemma {:induction false} KeepNamedCounts(store: seq<Skill>, tags: seq<string>)
    ensures forall k :: multiset(KeepNamed(store, tags))[k] == if k.name in tags then multiset(store)[k] else 0
    decreases |store|
  {
    if |store| > 0 {
      var rest := KeepNamed(store[1..], tags);
      KeepNamedCounts(store[1..], tags);
      assert store == [store[0]] + store[1..];
      assert multiset(store) == multiset{store[0]} + multiset(store[1..]);
      if store[0].name in tags {
        assert KeepNamed(store, tags) == [store[0]] + rest;
        assert multiset([store[0]] + rest) == multiset{store[0]} + multiset(rest);
      } else {
        assert KeepNamed(store, tags) == rest;
      }
    }
  }

  /** Reference definition of the names a tag edit adds: those of `names`
      not in `seen`, each at its first appearance only. */
  function Fresh(names: seq<string>, seen: seq<string>): (r: seq<string>)
    ensures forall n :: n in r <==> n in names && n !in seen
    ensures Distinct(r)
    ensures (forall n :: n in names ==> n in seen) ==> r == []
    decreases |names|
  {
    if |names| == 0 then []
    else if names[0] in seen then Fresh(names[1..], seen)
    else
      var seen' := seen + [names[0]];
      assert names[0] in seen';
      var rest := Fresh(names[1..], seen');
      assert names[0] !in rest;
      assert forall j :: 0 <= j < |rest| ==> rest[j] in rest;
      [names[0]] + rest
  }

  /** The records a tag edit appends (see `ReconcileShape`). */
  function Additions(store: seq<Skill>, tags: seq<string>): seq<Skill> {
    NewRecords(Fresh(tags, Names(store)))
  }

  lemma {:induction false} FreshSkipsSeen(xs: seq<string>, ys: seq<string>, seen: seq<string>)
    requires forall n :: n in xs ==> n in seen
    ensures Fresh(xs + ys, seen) == Fresh(ys, seen)
    decreases |xs|
  {
    if |xs| > 0 {
      assert (xs + ys)[0] == xs[0] && xs[0] in xs;
      assert (xs + ys)[1..] == xs[1..] + ys;
      FreshSkipsSeen(xs[1..], ys, seen);
    } else {
      assert xs + ys == ys;
    }
  }

  /** A new record at the default level for each name. */
  function NewRecords(names: seq<string>): (r: seq<Skill>)
    ensures |r| == |names|
    ensures forall i :: 0 <= i < |r| ==> r[i] == Skill(names[i], DefaultLevel)
  {
    seq(|names|, i requires 0 <= i < |names| => Skill(names[i], DefaultLevel))
  }

  /** The `addedSkills.forEach` loop: appends a default-level record for each
      name that no record of the accumulated list carries yet. */
  function AppendNew(acc: seq<Skill>, added: seq<string>): seq<Skill>
    decreases |added|
  {
    if |added| == 0 then acc
    else
      var next := if added[0] in Names(acc) then acc else acc + [Skill(added[0], DefaultLevel)];
      AppendNew(next, added[1..])
  }

  /** The tag-edit handler: drop the records whose name left the tag list,
      then append each newly tagged name once at the default level. */
  function Reconcile(store: seq<Skill>, tags: seq<string>): seq<Skill>
  {
    var current := Names(store);
    var added := Absent(tags, current);
    var removed := Absent(current, tags);
    AppendNew(DropNamed(store, removed), added)
  }

  lemma {:induction false} AppendNewSpec(acc: seq<Skill>, added: seq<string>)
    ensures AppendNew(acc, added) == acc + NewRecords(Fresh(added, Names(acc)))
    decreases |added|
  {
    if |added| > 0 {
      var n := added[0];
      if n in Names(acc) {
        assert AppendNew(acc, added) == AppendNew(acc, added[1..]);
        assert Fresh(added, Names(acc)) == Fresh(added[1..], Names(acc));
        AppendNewSpec(acc, added[1..]);
      } else {
        var next := acc + [Skill(n, DefaultLevel)];
        assert AppendNew(acc, added) == AppendNew(next, added[1..]);
        AppendNewSpec(next, added[1..]);
        NamesAppend(acc, [Skill(n, DefaultLevel)]);
        assert Names(next) == Names(acc) + [n];
        var f := Fresh(added[1..], Names(acc) + [n]);
        assert Fresh(added, Names(acc)) == [n] + f;
        NewRecordsCons(n, f);
      }
    }
  }

  lemma NewRecordsCons(n: string, f: seq<string>)
    ensures NewRecords([n] + f) == [Skill(n, DefaultLevel)] + NewRecords(f)
  {
  }

  /** Checking the added names against the accumulated records behaves as
      checking the unfiltered tags against the original names. */
  lemma {:induction false} FreshOfAbsent(xs: seq<string>, c: seq<string>, s1: seq<string>, s2: seq<string>)
    requires forall n :: n !in c ==> (n in s1 <==> n in s2)
    requires forall n :: n in c ==> n in s2
    ensures Fresh(Absent(xs, c), s1) == Fresh(xs, s2)
    decreases |xs|
  {
    if |xs| > 0 {
      var x := xs[0];
      if x in c {
        assert Absent(xs, c) == Absent(xs[1..], c);
        FreshOfAbsent(xs[1..], c, s1, s2);
      } else {
        var a := Absent(xs[1..], c);
        assert Absent(xs, c) == [x] + a;
        assert ([x] + a)[1..] == a;
        if x in s1 {
          FreshOfAbsent(xs[1..], c, s1, s2);
        } else {
          FreshOfAbsent(xs[1..], c, s1 + [x], s2 + [x]);
        }
      }
    }
  }

  lemma {:induction false} DropNamedIsKeepNamed(store: seq<Skill>, removed: seq<string>, tags: seq<string>)
    requires forall k :: k in store ==> (k.name in removed <==> k.name !in tags)
    ensures DropNamed(store, removed) == KeepNamed(store, tags)
    decreases |store|
  {
    if |store| > 0 {
      DropNamedIsKeepNamed(store[1..], removed, tags);
    }
  }

  /** A tag edit keeps the records whose names are still tagged, in order and
      with their levels, followed by one default-level record per newly
      tagged name in order of first appearance. */
  lemma ReconcileShape(store: seq<Skill>, tags: seq<string>)
    ensures Reconcile(store, tags) == KeepNamed(store, tags) + Additions(store, tags)
  {
    var current := Names(store);
    var removed := Absent(current, tags);
    forall k | k in store ensures k.name in removed <==> k.name !in tags {
      assert k.name in current;
    }
    DropNamedIsKeepNamed(store, removed, tags);
    var kept := KeepNamed(store, tags);
    AppendNewSpec(kept, Absent(tags, current));
    forall n | n in Names(kept) ensures n in current {
      var i :| 0 <= i < |kept| && Names(kept)[i] == n;
      assert kept[i] in store;
    }
    FreshOfAbsent(tags, current, Names(kept), current);
  }

  /** Survivors: exactly the records whose name is still a tag, in their
      original relative order and with their levels. */
  lemma ReconcileSurvivors(store: seq<Skill>, tags: seq<string>)
    ensures var kept := KeepNamed(store, tags);
      && IsPrefix(kept, Reconcile(store, tags))
      && IsSubsequence(kept, store)
      && (forall k :: k in kept <==> k in store && k.name in tags)
  {
    ReconcileShape(store, tags);
  }

  /** Additions: only new default-level records, one for every tagged name
      the store lacked, each exactly once, in order of first appearance. */
  lemma AdditionsAreFresh(store: seq<Skill>, tags: seq<string>)
    ensures var added := Additions(store, tags);
      && (forall k :: k in added ==> k.level == DefaultLevel && k.name !in Names(store) && k.name in tags)
      && (forall n :: n in tags && n !in Names(store) ==> Skill(n, DefaultLevel) in added)
      && Distinct(Names(added))
      && Names(added) == Fresh(tags, Names(store))
  {
    var f := Fresh(tags, Names(store));
    forall n | n in tags && n !in Names(store) ensures Skill(n, DefaultLevel) in NewRecords(f) {
      var i :| 0 <= i < |f| && f[i] == n;
      assert NewRecords(f)[i] == Skill(n, DefaultLevel);
    }
    assert Names(NewRecords(f)) == f;
  }

  /** A tag naming a skill already in the store never resets its level: any
      record carrying a pre-existing name is an original record. */
  lemma ReconcileNeverResets(store: seq<Skill>, tags: seq<string>)
    ensures forall k :: k in Reconcile(store, tags) && k.name in Names(store) ==> k in store
  {
    ReconcileShape(store, tags);
    AdditionsAreFresh(store, tags);
  }

  /** Reconciling a store against its own names, in any order and with any
      repetitions, returns the store unchanged. */
  lemma ReconcileSameNames(store: seq<Skill>, tags: seq<string>)
    requires forall n :: n in tags <==> n in Names(store)
    ensures Reconcile(store, tags) == store
  {
    ReconcileShape(store, tags);
    KeepAll(store, tags);
  }

  lemma {:induction false} KeepAll(store: seq<Skill>, tags: seq<string>)
    requires forall i :: 0 <= i < |store| ==> store[i].name in tags
    ensures KeepNamed(store, tags) == store
    decreases |store|
  {
    if |store| > 0 {
      KeepAll(store[1..], tags);
    }
  }

  /** Idempotence: the tag list the store displays reconciles to the store. */
  lemma ReconcileOwnNames(store: seq<Skill>)
    ensures Reconcile(store, Names(store)) == store
  {
    ReconcileSameNames(store, Names(store));
  }

  /** Tagging one new name appends exactly one default-level record. */
  lemma ReconcileAppendOne(store: seq<Skill>, name: string)
    requires name !in Names(store)
    ensures Reconcile(store, Names(store) + [name]) == store + [Skill(name, DefaultLevel)]
  {
    var tags := Names(store) + [name];
    ReconcileShape(store, tags);
    KeepAll(store, tags);
    FreshSkipsSeen(Names(store), [name], Names(store));
    assert Fresh([name], Names(store)) == [name] + Fresh([], Names(store) + [name]);
  }

  /** Reconciliation keeps the store free of duplicate names. */
  lemma ReconcileKeepsNamesUnique(store: seq<Skill>, tags: seq<string>)
    requires Distinct(Names(store))
    ensures Distinct(Names(Reconcile(store, tags)))
  {
    ReconcileShape(store, tags);
    var kept := KeepNamed(store, tags);
    var f := Fresh(tags, Names(store));
    KeepNamedNamesSubsequence(store, tags);
    SubsequenceDistinct(Names(kept), Names(store));
    SubsequenceMembers(Names(kept), Names(store));
    NamesAppend(kept, NewRecords(f));
    assert Names(NewRecords(f)) == f;
    DistinctConcat(Names(kept), f);
  }

  lemma {:induction false} KeepNamedNamesSubsequence(store: seq<Skill>, tags: seq<string>)
    ensures IsSubsequence(Names(KeepNamed(store, tags)), Names(store))
    decreases |store|
  {
    if |store| > 0 {
      KeepNamedNamesSubsequence(store[1..], tags);
      var rest := KeepNamed(store[1..], tags);
      assert Names(store)[1..] == Names(store[1..]);
      if store[0].name in tags {
        assert Names([store[0]] + rest)[1..] == Names(rest);
      } else {
        DropHead(Names(rest), Names(store));
      }
    }
  }

  /** The slider's change handler: record `index` takes the new level. */
  function SetLevel(store: seq<Skill>, index: nat, level: Level): (r: seq<Skill>)
    requires index < |store|
    ensures |r| == |store| && Names(r) == Names(store)
    ensures r[index].level == level
    ensures forall j :: 0 <= j < |r| && j != index ==> r[j] == store[j]
  {
    store[index := store[index].(level := level)]
  }

  /** A level change leaves the tag list alone, so the tag input's view of
      the store reconciles to the changed store. */
  lemma SetLevelThenReconcile(store: seq<Skill>, index: nat, level: Level)
    requires index < |store|
    ensures var r := SetLevel(store, index, level); Reconcile(r, Names(store)) == r
  {
    ReconcileOwnNames(SetLevel(store, index, level));
  }

  /** The per-skill remove control: drops position `index`. */
  function RemoveSkill(store: seq<Skill>, index: int): (r: seq<Skill>)
    ensures 0 <= index < |store| ==> |r| == |store| - 1 && r[..index] == store[..index] && r[index..] == store[index + 1..]
    ensures !(0 <= index < |store|) ==> r == store
  {
    Without(store, index)
  }

  lemma {:induction false} KeepByIndex(store: seq<Skill>, tags: seq<string>, index: int)
    requires forall j :: 0 <= j < |store| ==> (store[j].name in tags <==> j != index)
    ensures KeepNamed(store, tags) == Without(store, index)
    decreases |store|
  {
    if |store| > 0 {
      KeepByIndex(store[1..], tags, index - 1);
    }
  }

  /** With unique names, removing a skill's tag chip and pressing the skill's
      remove control leave the same store. */
  lemma RemoveTagAgreesWithRemoveSkill(store: seq<Skill>, index: int)
    requires Distinct(Names(store)) && 0 <= index < |store|
    ensures Reconcile(store, Without(Names(store), index)) == RemoveSkill(store, index)
  {
    var tags := Without(Names(store), index);
    ReconcileShape(store, tags);
    RemovedTagKeepsOthers(store, index);
    WithoutDistinct(Names(store), index);
  }

  lemma RemovedTagKeepsOthers(store: seq<Skill>, index: int)
    requires Distinct(Names(store)) && 0 <= index < |store|
    ensures KeepNamed(store, Without(Names(store), index)) == Without(store, index)
  {
    var names := Names(store);
    WithoutDistinct(names, index);
    assert forall j :: 0 <= j < |store| ==> store[j].name == names[j];
    KeepByIndex(store, Without(names, index), index);
  }

  /** The profile form as the page holds it: number inputs keep their raw
      text, so "" means "not filled in" and "0" is a filled-in value. */
  datatype Draft = Draft(
    name: string,
    age: string,
    yearsOfExperience: string,
    interestAreas: seq<string>,
    education: string,
    targetRoles: seq<string>,
    hoursPerWeek: string,
    durationWeeks: string,
    resumeText: string)

  datatype TextField = NameField | AgeField | ExperienceField | EducationField | HoursField | DurationField | ResumeField
  datatype ListField = InterestsField | TargetRolesField

  function TextOf(d: Draft, f: TextField): string {
    match f
    case NameField => d.name
    case AgeField => d.age
    case ExperienceField => d.yearsOfExperience
    case EducationField => d.education
    case HoursField => d.hoursPerWeek
    case DurationField => d.durationWeeks
    case ResumeField => d.resumeText
  }

  function ListOf(d: Draft, f: ListField): seq<string> {
    match f
    case InterestsField => d.interestAreas
    case TargetRolesField => d.targetRoles
  }

  /** The input-change handler for a text field: that field takes the new
      value and every other field is unchanged. */
  function SetText(d: Draft, f: TextField, value: string): (r: Draft)
    ensures TextOf(r, f) == value
    ensures forall g :: g != f ==> TextOf(r, g) == TextOf(d, g)
    ensures forall g :: ListOf(r, g) == ListOf(d, g)
  {
    match f
    case NameField => d.(name := value)
    case AgeField => d.(age := value)
    case ExperienceField => d.(yearsOfExperience := value)
    case EducationField => d.(education := value)
    case HoursField => d.(hoursPerWeek := value)
    case DurationField => d.(durationWeeks := value)
    case ResumeField => d.(resumeText := value)
  }

  /** The input-change handler for a tag-list field. */
  function SetList(d: Draft, f: ListField, value: seq<string>): (r: Draft)
    ensures ListOf(r, f) == value
    ensures forall g :: g != f ==> ListOf(r, g) == ListOf(d, g)
    ensures forall g :: TextOf(r, g) == TextOf(d, g)
  {
    match f
    case InterestsField => d.(interestAreas := value)
    case TargetRolesField => d.(targetRoles := value)
  }

  /** A draft is determined by what its fields read. */
  lemma SameFieldsSameDraft(d: Draft, e: Draft)
    requires forall f :: TextOf(d, f) == TextOf(e, f)
    requires forall g :: ListOf(d, g) == ListOf(e, g)
    ensures d == e
  {
    assert TextOf(d, NameField) == TextOf(e, NameField);
    assert TextOf(d, AgeField) == TextOf(e, AgeField);
    assert TextOf(d, ExperienceField) == TextOf(e, ExperienceField);
    assert TextOf(d, EducationField) == TextOf(e, EducationField);
    assert TextOf(d, HoursField) == TextOf(e, HoursField);
    assert TextOf(d, DurationField) == TextOf(e, DurationField);
    assert TextOf(d, ResumeField) == TextOf(e, ResumeField);
    assert ListOf(d, InterestsField) == ListOf(e, InterestsField);
    assert ListOf(d, TargetRolesField) == ListOf(e, TargetRolesField);
  }

  /** Edits to two different text fields commute. */
  lemma SetTextCommutes(d: Draft, f: TextField, a: string, g: TextField, b: string)
    requires f != g
    ensures SetText(SetText(d, f, a), g, b) == SetText(SetText(d, g, b), f, a)
  {
    SameFieldsSameDraft(SetText(SetText(d, f, a), g, b), SetText(SetText(d, g, b), f, a));
  }

  /** Of two edits to the same text field, the last one wins; writing back a
      field's own value changes nothing. */
  lemma SetTextLastWins(d: Draft, f: TextField, a: string, b: string)
    ensures SetText(SetText(d, f, a), f, b) == SetText(d, f, b)
    ensures SetText(d, f, TextOf(d, f)) == d
  {
    SameFieldsSameDraft(SetText(SetText(d, f, a), f, b), SetText(d, f, b));
    SameFieldsSameDraft(SetText(d, f, TextOf(d, f)), d);
  }

  /** Edits to two different list fields commute, and so do a text edit and
      a list edit. */
  lemma SetListCommutes(d: Draft, f: ListField, a: seq<string>, g: ListField, b: seq<string>, t: TextField, v: string)
    requires f != g
    ensures SetList(SetList(d, f, a), g, b) == SetList(SetList(d, g, b), f, a)
    ensures SetList(SetText(d, t, v), f, a) == SetText(SetList(d, f, a), t, v)
  {
    SameFieldsSameDraft(SetList(SetList(d, f, a), g, b), SetList(SetList(d, g, b), f, a));
    SameFieldsSameDraft(SetList(SetText(d, t, v), f, a), SetText(SetList(d, f, a), t, v));
  }

  /** Of two edits to the same list field, the last one wins; writing back a
      list's own value changes nothing. */
  lemma SetListLastWins(d: Draft, f: ListField, a: seq<string>, b: seq<string>)
    ensures SetList(SetList(d, f, a), f, b) == SetList(d, f, b)
    ensures SetList(d, f, ListOf(d, f)) == d
  {
    SameFieldsSameDraft(SetList(SetList(d, f, a), f, b), SetList(d, f, b));
    SameFieldsSameDraft(SetList(d, f, ListOf(d, f)), d);
  }

  /** What the detect-skills request produced: a JSON body whose `skills`
      field may be missing, or a failure (network error, error status). */
  datatype DetectReply = Body(skills: Option<seq<DetectedSkill>>) | Failure

  datatype DetectOutcome = DetectOutcome(requested: bool, store: seq<Skill>)

  /** The store a detection response installs: one record per detected
      skill, `canonical` as name and `inferred_level` as level. */
  function FromDetected(ds: seq<DetectedSkill>): (r: seq<Skill>)
    ensures |r| == |ds|
    ensures forall i :: 0 <= i < |ds| ==> r[i].name == ds[i].canonical && r[i].level == ds[i].inferredLevel
  {
    seq(|ds|, i requires 0 <= i < |ds| => Skill(ds[i].canonical, ds[i].inferredLevel))
  }

  /** The detect-skills handler: nothing happens without resume text;
      otherwise a reply carrying a `skills` list (even an empty one)
      replaces the whole store, and any other reply leaves it as it was. */
  function DetectSkills(d: Draft, store: seq<Skill>, reply: DetectReply): (r: DetectOutcome)
    ensures r.requested <==> d.resumeText != ""
    ensures r.requested && reply.Body? && reply.skills.Some? ==>
      |r.store| == |reply.skills.value| &&
      forall i :: 0 <= i < |r.store| ==> r.store[i] == Skill(reply.skills.value[i].canonical, reply.skills.value[i].inferredLevel)
    ensures !(r.requested && reply.Body? && reply.skills.Some?) ==> r.store == store
  {
    if d.resumeText == "" then DetectOutcome(false, store)
    else match reply
      case Body(Some(ds)) => DetectOutcome(true, FromDetected(ds))
      case _ => DetectOutcome(true, store)
  }

  /** After a reply carrying skills, the tag list shows exactly the detected
      canonical names in order, and the tag input's echo of that list
      reconciles to the installed store. */
  lemma DetectedStoreShowsCanonicals(d: Draft, store: seq<Skill>, ds: seq<DetectedSkill>)
    requires d.resumeText != ""
    ensures var r := DetectSkills(d, store, Body(Some(ds))).store;
      Names(r) == CanonicalNames(ds) && Reconcile(r, CanonicalNames(ds)) == r
  {
    var r := DetectSkills(d, store, Body(Some(ds))).store;
    assert Names(r) == CanonicalNames(ds);
    ReconcileOwnNames(r);
  }

  const FieldsMessage := "Please fill in all required fields"
  const SkillsMessage := "Please add at least one skill"

  /** The submit handler's verdict: an alert, or navigation to the results
      page carrying the draft and the store. */
  datatype Submission = Blocked(message: string) | Proceed(profile: Draft, skills: seq<Skill>)

  predicate RequiredFilled(d: Draft) {
    d.name != "" && d.age != "" && d.yearsOfExperience != "" && d.education != ""
  }

  /** The four fields the submit gate checks. */
  predicate IsRequired(f: TextField) {
    f.NameField? || f.AgeField? || f.ExperienceField? || f.EducationField?
  }

  /** The submit gate: the four required fields are checked first, then that
      at least one skill exists; only then are draft and store handed on. */
  function Submit(d: Draft, store: seq<Skill>): (r: Submission)
    ensures r.Proceed? <==> RequiredFilled(d) && |store| > 0
    ensures r.Proceed? ==> r.profile == d && r.skills == store
    ensures !RequiredFilled(d) ==> r == Blocked(FieldsMessage)
    ensures RequiredFilled(d) && |store| == 0 ==> r == Blocked(SkillsMessage)
  {
    if d.name == "" || d.age == "" || d.yearsOfExperience == "" || d.education == "" then Blocked(FieldsMessage)
    else if |store| == 0 then Blocked(SkillsMessage)
    else Proceed(d, store)
  }

  /** Editing a field the gate does not check never changes its verdict:
      a blocked submission stays blocked with the same alert, and one that
      proceeds carries the edited draft. */
  lemma SubmitIgnoresOptionalFields(d: Draft, store: seq<Skill>, f: TextField, v: string, g: ListField, a: seq<string>)
    requires !IsRequired(f)
    ensures var e := SetText(d, f, v);
      && (Submit(e, store).Blocked? ==> Submit(e, store) == Submit(d, store))
      && (Submit(d, store).Blocked? ==> Submit(e, store) == Submit(d, store))
      && (Submit(e, store).Proceed? <==> Submit(d, store).Proceed?)
    ensures var e := SetList(d, g, a);
      && (Submit(e, store).Blocked? ==> Submit(e, store) == Submit(d, store))
      && (Submit(d, store).Blocked? ==> Submit(e, store) == Submit(d, store))
      && (Submit(e, store).Proceed? <==> Submit(d, store).Proceed?)
  {
    assert TextOf(SetText(d, f, v), NameField) == d.name;
    assert TextOf(SetText(d, f, v), AgeField) == d.age;
    assert TextOf(SetText(d, f, v), ExperienceField) == d.yearsOfExperience;
    assert TextOf(SetText(d, f, v), EducationField) == d.education;
    assert TextOf(SetList(d, g, a), NameField) == d.name;
    assert TextOf(SetList(d, g, a), AgeField) == d.age;
    assert TextOf(SetList(d, g, a), ExperienceField) == d.yearsOfExperience;
    assert TextOf(SetList(d, g, a), EducationField) == d.education;
  }

  /** Filling the four required fields with non-empty text, on a store
      holding a skill, always lets the submission through. */
  lemma FilledFormProceeds(d: Draft, store: seq<Skill>, name: string, age: string, years: string, education: string)
    requires name != "" && age != "" && years != "" && education != "" && |store| > 0
    ensures var e := SetText(SetText(SetText(SetText(d, NameField, name), AgeField, age), ExperienceField, years), EducationField, education);
      Submit(e, store) == Proceed(e, store)
  {
    var e1 := SetText(d, NameField, name);
    var e2 := SetText(e1, AgeField, age);
    var e3 := SetText(e2, ExperienceField, years);
    var e := SetText(e3, EducationField, education);
    assert TextOf(e, NameField) == name;
    assert TextOf(e, AgeField) == age;
    assert TextOf(e, ExperienceField) == years;
    assert TextOf(e, EducationField) == education;
  }
}

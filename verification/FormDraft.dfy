/**
  Draft, preview and publish of a form design (app/form_design.py and the actions of
  app/designer/studio.py).  Every action runs under row locks on the form and its draft,
  so one action is one atomic step, whichever session sends it.  Digests are taken to be
  injective: a hash is modelled by the value it was taken of.
*/
module FormDraft {
  import opened Wrappers
  import FormRules

  datatype Settings = Settings(title: string, description: Option<string>, purpose: string,
                               inCatalog: bool, catalogGroup: Option<string>)

  datatype Item = Item(kind: string, fieldId: Option<int>, relationId: Option<int>,
                       parentFieldId: Option<int>, filterFieldId: Option<int>,
                       caption: Option<string>, help: Option<string>, widget: Option<string>,
                       required: bool, readonly: bool, rules: FormRules.Rules)

  datatype Config = Config(settings: Settings, items: seq<Item>)

  /** The form's table: its own row and the rows of its fields, as hashed into `live_hash`. */
  datatype Schema = Schema(tableRow: string, fieldRows: seq<string>)

  datatype Live = Live(config: Config, schema: Schema)

  /** `validate_config`: it raises, or returns the normalised config and whether an issue is an error. */
  datatype Verdict = Raised | Checked(config: Config, hasErrors: bool)

  type Validator = (Schema, Config) -> Verdict

  datatype Draft = Draft(config: Config, version: nat, base: Live, tested: Option<Config>)

  datatype State = State(live: Live, draft: Option<Draft>, revisions: seq<Config>)

  /**
    `Open` is `get_draft`.  `Preview` carries what the role preview itself came to: None
    when it raised, otherwise whether the sample was valid.  `EditForm` and `EditSchema`
    are changes made elsewhere in the designer.
  */
  datatype Action =
    | Open
    | Save(version: int, config: Config)
    | Preview(version: int, shown: Option<bool>)
    | Publish(version: int)
    | Reset(version: int)
    | Restore(version: int, revision: int)
    | EditForm(form: Config)
    | EditSchema(schema: Schema)

  predicate OnDraft(a: Action) {
    a.Save? || a.Preview? || a.Publish? || a.Reset? || a.Restore?
  }

  /** The state an accepted action leaves; None when it is refused and rolled back. */
  function Step(check: Validator, s: State, a: Action): Option<State> {
    match a
    case EditForm(form) => Some(s.(live := s.live.(config := form)))
    case EditSchema(schema) => Some(s.(live := s.live.(schema := schema)))
    case Open =>
      if s.draft.Some? then Some(s)
      else Some(s.(draft := Some(Draft(s.live.config, 1, s.live, None))))
    case _ =>
      if s.draft.None? || s.draft.value.version != a.version then None
      else OnDraftStep(check, s, s.draft.value, a)
  }

  function OnDraftStep(check: Validator, s: State, d: Draft, a: Action): Option<State>
    requires OnDraft(a)
  {
    var next := d.version + 1;
    match a
    case Save(_, config) =>
      var v := check(s.live.schema, config);
      if v.Raised? then None
      else Some(s.(draft := Some(Draft(v.config, next, d.base, None))))
    case Preview(_, shown) =>
      var v := check(s.live.schema, d.config);
      if v.Raised? || shown.None? then None
      else
        var tested := if shown.value && !v.hasErrors then Some(v.config) else None;
        Some(s.(draft := Some(Draft(d.config, next, d.base, tested))))
    case Publish(_) =>
      var v := check(s.live.schema, d.config);
      if d.base != s.live || v.Raised? || v.hasErrors || d.tested != Some(v.config) then None
      else
        var live := Live(v.config, s.live.schema);
        Some(State(live, Some(Draft(v.config, next, live, None)), s.revisions + [s.live.config, v.config]))
    case Reset(_) =>
      Some(s.(draft := Some(Draft(s.live.config, next, s.live, None))))
    case Restore(_, revision) =>
      if !(0 <= revision < |s.revisions|) then None
      else
        var v := check(s.live.schema, s.revisions[revision]);
        if v.Raised? then None
        else Some(s.(draft := Some(Draft(v.config, next, s.live, None))))
  }

  // ---------------------------------------------------------------- the stored rows

  /** The form, draft and revision rows, updated in place by each request. */
  class Studio {
    var live: Live
    var draft: Option<Draft>
    var revisions: seq<Config>

    ghost function View(): State
      reads this
    {
      State(live, draft, revisions)
    }

    constructor (initial: Live)
      ensures View() == State(initial, None, [])
    {
      live, draft, revisions := initial, None, [];
    }

    /** `get_draft`: the first visit to the builder creates the draft from the live form. */
    method GetDraft(check: Validator)
      modifies this
      ensures Some(View()) == Step(check, old(View()), Open)
      ensures draft.Some?
    {
      if draft.None? {
        draft := Some(Draft(live.config, 1, live, None));
      }
    }

    /** `action`: one POST to the builder.  The result says whether it was accepted. */
    method Act(check: Validator, a: Action) returns (ok: bool)
      requires OnDraft(a)
      modifies this
      ensures ok <==> Step(check, old(View()), a).Some?
      ensures View() == if ok then Step(check, old(View()), a).value else old(View())
    {
      if draft.None? || draft.value.version != a.version {
        return false;
      }
      var d := draft.value;
      match a {
        case Save(_, config) =>
          var v := check(live.schema, config);
          if v.Raised? {
            return false;
          }
          d := d.(config := v.config);
          d := d.(version := d.version + 1, tested := None);
        case Preview(_, shown) =>
          var v := check(live.schema, d.config);
          if v.Raised? || shown.None? {
            return false;
          }
          if shown.value && !v.hasErrors {
            d := d.(tested := Some(v.config));
          } else {
            d := d.(tested := None);
          }
          d := d.(version := d.version + 1);
        case Publish(_) =>
          if d.base != live {
            return false;
          }
          var v := check(live.schema, d.config);
          if v.Raised? || v.hasErrors {
            return false;
          }
          if d.tested != Some(v.config) {
            return false;
          }
          revisions := revisions + [live.config];
          live := live.(config := v.config);
          revisions := revisions + [live.config];
          d := Draft(live.config, d.version + 1, live, None);
          assert revisions == old(revisions) + [old(live).config, v.config];
        case Reset(_) =>
          d := Draft(live.config, d.version + 1, live, None);
        case Restore(_, revision) =>
          if !(0 <= revision < |revisions|) {
            return false;
          }
          var v := check(live.schema, revisions[revision]);
          if v.Raised? {
            return false;
          }
          d := Draft(v.config, d.version + 1, live, None);
      }
      draft := Some(d);
      return true;
    }
  }

  // ---------------------------------------------------------------- runs

  /** Any interleaving of requests and outside edits, from a form without a draft. */
  ghost predicate Run(check: Validator, acts: seq<Action>, s: seq<State>) {
    && |s| == |acts| + 1
    && s[0].draft.None?
    && forall i | 0 <= i < |acts| :: Next(check, s[i], acts[i], s[i + 1])
  }

  ghost predicate Next(check: Validator, before: State, a: Action, after: State) {
    var r := Step(check, before, a);
    after == if r.Some? then r.value else before
  }

  predicate Accepted(check: Validator, s: State, a: Action) {
    OnDraft(a) && Step(check, s, a).Some?
  }

  lemma {:induction false} VersionsGrow(check: Validator, acts: seq<Action>, s: seq<State>, i: nat, j: nat)
    requires Run(check, acts, s) && i <= j <= |acts|
    requires s[i].draft.Some?
    ensures s[j].draft.Some? && s[i].draft.value.version <= s[j].draft.value.version
    decreases j
  {
    if i < j {
      VersionsGrow(check, acts, s, i, j - 1);
      assert Next(check, s[j - 1], acts[j - 1], s[j]);
    }
  }

  /** What each action on a draft needs: the current version, and beyond that … */
  lemma AcceptedIff(check: Validator, s: State, a: Action)
    requires OnDraft(a)
    ensures Accepted(check, s, a) <==>
      && s.draft.Some? && a.version == s.draft.value.version
      && (a.Save? ==> !check(s.live.schema, a.config).Raised?)
      && (a.Preview? ==> !check(s.live.schema, s.draft.value.config).Raised? && a.shown != None)
      && (a.Publish? ==> (
            && s.draft.value.base == s.live
            && exists c :: check(s.live.schema, s.draft.value.config) == Checked(c, false) && s.draft.value.tested == Some(c)))
      && (a.Restore? ==> 0 <= a.revision < |s.revisions| && !check(s.live.schema, s.revisions[a.revision]).Raised?)
  {
    if s.draft.Some? {
      var v := check(s.live.schema, s.draft.value.config);
      if v.Checked? && !v.hasErrors { assert v == Checked(v.config, false); }
    }
  }

  /**
    The way a design goes live: saved, previewed and published on consecutive versions of a
    draft that is based on the live form, an error-free design passes every guard, and what
    goes live is its validated form.
  */
  lemma DesignGoesLive(check: Validator, s: State, c: Config, stored: Config) returns (end: State)
    requires s.draft.Some? && s.draft.value.base == s.live
    requires check(s.live.schema, c) == Checked(stored, false) && check(s.live.schema, stored) == Checked(stored, false)
    ensures var n := s.draft.value.version; var saved := Step(check, s, Save(n, c));
      && saved.Some?
      && var shown := Step(check, saved.value, Preview(n + 1, Some(true)));
      && shown.Some? && Step(check, shown.value, Publish(n + 2)) == Some(end)
    ensures end.live == Live(stored, s.live.schema) && end.draft.Some? && end.draft.value.config == stored
  {
    var n := s.draft.value.version;
    var saved := Step(check, s, Save(n, c)).value;
    var shown := Step(check, saved, Preview(n + 1, Some(true))).value;
    end := Step(check, shown, Publish(n + 2)).value;
  }

  /** A version number wins at most once: of two accepted actions the later quoted a larger one. */
  lemma VersionWinsOnce(check: Validator, acts: seq<Action>, s: seq<State>, i: nat, j: nat)
    requires Run(check, acts, s) && i < j < |acts|
    requires Accepted(check, s[i], acts[i]) && Accepted(check, s[j], acts[j])
    ensures acts[i].version < acts[j].version
  {
    assert Next(check, s[i], acts[i], s[i + 1]);
    VersionsGrow(check, acts, s, i + 1, j);
  }

  predicate Replaces(check: Validator, s: State, a: Action) {
    Accepted(check, s, a) && !a.Preview?
  }

  /**
    No save is silently overwritten: the saved config is still the draft until an accepted
    action replaces it, and whoever sent that action had quoted a version issued after the
    save.
  */
  lemma {:induction false} SaveSurvives(check: Validator, acts: seq<Action>, s: seq<State>, i: nat, k: nat)
    requires Run(check, acts, s) && i < k <= |acts|
    requires acts[i].Save? && Accepted(check, s[i], acts[i])
    ensures s[k].draft.Some?
    ensures s[k].draft.value.config == check(s[i].live.schema, acts[i].config).config
         || exists m | i < m < k :: Replaces(check, s[m], acts[m]) && acts[m].version > acts[i].version
    decreases k
  {
    assert Next(check, s[k - 1], acts[k - 1], s[k]);
    if i + 1 < k {
      SaveSurvives(check, acts, s, i, k - 1);
      if Replaces(check, s[k - 1], acts[k - 1]) {
        VersionWinsOnce(check, acts, s, i, k - 1);
      }
    }
  }

  /** Between `j` and `i` the draft's content, base and successful test stayed put. */
  ghost predicate Untouched(s: seq<State>, j: nat, i: nat)
    requires i < |s|
  {
    forall k | j <= k <= i :: s[k].draft.Some? && s[j].draft.Some?
      && s[k].draft.value.config == s[j].draft.value.config
      && s[k].draft.value.base == s[j].draft.value.base
  }

  /**
    What the draft was last replaced by: the live form when the draft is opened or reset, a
    validated revision when it is restored, the validated submission when it is saved, what
    went live when it is published; its base is the live form of that moment, except that a
    save keeps the base it finds.
  */
  ghost predicate ReplacedBy(check: Validator, before: State, a: Action, after: State, d: Draft) {
    match a
    case Open => before.draft == None && d.config == before.live.config && d.base == before.live
    case Reset(_) => d.config == before.live.config && d.base == before.live
    case Restore(_, r) =>
      && 0 <= r < |before.revisions| && d.base == before.live
      && exists bad :: check(before.live.schema, before.revisions[r]) == Checked(d.config, bad)
    case Save(_, c) =>
      && before.draft.Some? && d.base == before.draft.value.base
      && exists bad :: check(before.live.schema, c) == Checked(d.config, bad)
    case Publish(_) => d.config == after.live.config && d.base == after.live
    case _ => false
  }

  /** Whatever a draft holds goes back to the action that put it there, and nothing has changed it since. */
  lemma {:induction false} DraftOrigin(check: Validator, acts: seq<Action>, s: seq<State>, i: nat) returns (j: nat)
    requires Run(check, acts, s) && i <= |acts| && s[i].draft.Some?
    ensures j < i && Untouched(s, j + 1, i) && ReplacedBy(check, s[j], acts[j], s[j + 1], s[i].draft.value)
  {
    assert i != 0;
    assert Next(check, s[i - 1], acts[i - 1], s[i]);
    var a := acts[i - 1];
    if Step(check, s[i - 1], a).Some? && (a.Open? ==> s[i - 1].draft.None?) && !a.Preview? && !a.EditForm? && !a.EditSchema? {
      j := i - 1;
      NewDraft(check, s[j], a, s[i]);
    } else {
      j := DraftOrigin(check, acts, s, i - 1);
    }
  }

  lemma NewDraft(check: Validator, before: State, a: Action, after: State)
    requires Step(check, before, a) == Some(after) && (a.Open? ==> before.draft.None?) && !a.Preview? && !a.EditForm? && !a.EditSchema?
    ensures after.draft.Some? && ReplacedBy(check, before, a, after, after.draft.value)
  {
    match a
    case Save(_, c) => assert check(before.live.schema, c) == Checked(after.draft.value.config, check(before.live.schema, c).hasErrors);
    case Restore(_, r) =>
      assert check(before.live.schema, before.revisions[r]) == Checked(after.draft.value.config, check(before.live.schema, before.revisions[r]).hasErrors);
    case _ =>
  }

  /** `j` is a preview that succeeded and set the test that still stands at `i`. */
  ghost predicate TestedAt(check: Validator, acts: seq<Action>, s: seq<State>, j: nat, i: nat)
    requires Run(check, acts, s) && i <= |acts|
  {
    && j < i && acts[j].Preview? && Accepted(check, s[j], acts[j])
    && acts[j].shown == Some(true)
    && Untouched(s, j, i) && s[i].draft.Some?
    && s[i].draft.value.tested.Some?
    && check(s[j].live.schema, s[j].draft.value.config) == Checked(s[i].draft.value.tested.value, false)
    && forall k | j < k <= i :: s[k].draft.Some? && s[k].draft.value.tested == s[i].draft.value.tested
  }

  /** Every standing test goes back to a successful preview of the very same draft. */
  lemma {:induction false} TestComesFromPreview(check: Validator, acts: seq<Action>, s: seq<State>, i: nat) returns (j: nat)
    requires Run(check, acts, s) && i <= |acts|
    requires s[i].draft.Some? && s[i].draft.value.tested.Some?
    ensures TestedAt(check, acts, s, j, i)
  {
    assert i != 0;
    assert Next(check, s[i - 1], acts[i - 1], s[i]);
    if acts[i - 1].Preview? && Accepted(check, s[i - 1], acts[i - 1]) {
      j := i - 1;
    } else {
      j := TestComesFromPreview(check, acts, s, i - 1);
    }
  }

  /**
    Publication safety.  In every interleaving, what an accepted publish puts live was
    accepted by the validator against the schema of that moment, is what an earlier
    preview tested successfully, and neither the draft nor its base changed in between;
    and the base is the live form it replaces.
  */
  lemma PublishedWasPreviewed(check: Validator, acts: seq<Action>, s: seq<State>, i: nat) returns (j: nat)
    requires Run(check, acts, s) && i < |acts|
    requires acts[i].Publish? && Accepted(check, s[i], acts[i])
    ensures TestedAt(check, acts, s, j, i)
    ensures check(s[i].live.schema, s[i].draft.value.config) == Checked(s[i + 1].live.config, false)
    ensures check(s[j].live.schema, s[j].draft.value.config) == Checked(s[i + 1].live.config, false)
    ensures s[j].draft.value.base == s[i].live
    // the line above is the content: what the preview tested was based on the form that goes out;
    // it follows that the preview ran against that form exactly when the draft was not stale then
    ensures s[j].live == s[i].live <==> s[j].draft.value.base == s[j].live
  {
    assert Next(check, s[i], acts[i], s[i + 1]);
    j := TestComesFromPreview(check, acts, s, i);
  }

  /** After a publish the draft is the live form, untested … */
  lemma AfterPublish(check: Validator, acts: seq<Action>, s: seq<State>, i: nat)
    requires Run(check, acts, s) && i < |acts|
    requires acts[i].Publish? && Accepted(check, s[i], acts[i])
    ensures s[i + 1].draft.Some? && s[i + 1].draft.value.config == s[i + 1].live.config
    ensures s[i + 1].draft.value.base == s[i + 1].live && s[i + 1].draft.value.tested.None?
    ensures s[i + 1].revisions == s[i].revisions + [s[i].live.config, s[i + 1].live.config]
  {
    assert Next(check, s[i], acts[i], s[i + 1]);
  }

  /** … and a later publish needs a successful preview of its own in between. */
  lemma RepublishNeedsPreview(check: Validator, acts: seq<Action>, s: seq<State>, i: nat, m: nat) returns (j: nat)
    requires Run(check, acts, s) && i < m < |acts|
    requires acts[i].Publish? && Accepted(check, s[i], acts[i])
    requires acts[m].Publish? && Accepted(check, s[m], acts[m])
    ensures i < j < m && TestedAt(check, acts, s, j, m)
  {
    AfterPublish(check, acts, s, i);
    j := PublishedWasPreviewed(check, acts, s, m);
  }

  /** The live form only ever changes by an outside edit or by an accepted publish. */
  lemma OnlyPublishGoesLive(check: Validator, acts: seq<Action>, s: seq<State>, i: nat)
    requires Run(check, acts, s) && i < |acts|
    requires s[i + 1].live != s[i].live
    ensures acts[i].EditForm? || acts[i].EditSchema? || (acts[i].Publish? && Accepted(check, s[i], acts[i]))
  {
    assert Next(check, s[i], acts[i], s[i + 1]);
  }

  /**
    The equivalence in `PublishedWasPreviewed` is not vacuous: a preview of a stale draft
    counts if the live schema is changed back before the publish.
  */
  lemma StalePreviewCanPublish(check: Validator, c: Config, s1: Schema, s2: Schema)
    returns (acts: seq<Action>, s: seq<State>)
    requires s1 != s2
    requires check(s1, c) == Checked(c, false) && check(s2, c) == Checked(c, false)
    ensures Run(check, acts, s) && |acts| == 5
    ensures acts[2].Preview? && Accepted(check, s[2], acts[2]) && TestedAt(check, acts, s, 2, 4)
    ensures acts[4].Publish? && Accepted(check, s[4], acts[4]) && s[2].live != s[4].live
  {
    var l1, l2 := Live(c, s1), Live(c, s2);
    acts := [Open, EditSchema(s2), Preview(1, Some(true)), EditSchema(s1), Publish(2)];
    var d1, d2 := Draft(c, 1, l1, None), Draft(c, 2, l1, Some(c));
    s := [State(l1, None, []), State(l1, Some(d1), []), State(l2, Some(d1), []), State(l2, Some(d2), []),
          State(l1, Some(d2), []), State(l1, Some(Draft(c, 3, l1, None)), [c, c])];
    assert Next(check, s[0], acts[0], s[1]) && Next(check, s[1], acts[1], s[2]) && Next(check, s[2], acts[2], s[3]);
    assert Next(check, s[3], acts[3], s[4]) && Next(check, s[4], acts[4], s[5]);
  }
}

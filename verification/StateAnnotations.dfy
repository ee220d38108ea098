/** The annotations of state.json over the life of a container: recorded at create, and at every save joined
    by the annotations of the spec that are not urunc's own. */
module StateAnnotations {
  import opened GoStrings
  import opened Strconv
  import opened ConfigKeys
  import opened UruncConfig
  import Handshake

  const URUNC_PREFIX := "com.urunc.unikernel."
  const ANNOT_TYPE := "com.urunc.unikernel.unikernelType"

  /** A key of the spec that a save may add. */
  predicate Propagates(key: string) {
    !HasPrefix(key, URUNC_PREFIX)
  }

  /** The annotations after a save: those of the spec never replace one that is there. */
  function Propagated(annotations: map<string, string>, spec: map<string, string>): map<string, string> {
    (map key | key in spec && Propagates(key) :: spec[key]) + annotations
  }

  /** What state.json records; writing and reading it is the identity. */
  datatype State = State(status: Handshake.Status, pid: int, annotations: map<string, string>)

  /** The state is that of a unikernel's container. */
  predicate IsUnikernel(stored: State) {
    ANNOT_TYPE in stored.annotations && stored.annotations[ANNOT_TYPE] != ""
  }

  /** The container as one of urunc's processes holds it. `fails` says whether writing a file fails. */
  class Unikontainer {
    var status: Handshake.Status
    var pid: int
    var annotations: map<string, string>
    var uruncCfg: Config
    const specAnnotations: map<string, string>

    /** The end of `New`: what `config.Map()` gives, overlaid by what `cfg.Map()` gives. */
    constructor New(unikernel: map<string, string>, cfg: Config, spec: map<string, string>)
      ensures uruncCfg == cfg && specAnnotations == spec
      ensures exists flat :: IsMapOf(cfg, flat) && Held() == State(Handshake.Creating, -1, unikernel + flat)
    {
      hide IsMapOf;
      var flat := Map(cfg);
      status, pid, annotations, uruncCfg := Handshake.Creating, -1, unikernel + flat, cfg;
      specAnnotations := spec;
    }

    constructor Load(stored: State, cfg: Config, spec: map<string, string>)
      ensures Held() == stored && uruncCfg == cfg && specAnnotations == spec
    {
      status, pid, annotations, uruncCfg := stored.status, stored.pid, stored.annotations, cfg;
      specAnnotations := spec;
    }

    /** `Get`. The state file and the spec of the bundle are None if they cannot be loaded; a spec without a linux
        section counts as that. */
    static method Get(stateFile: Option<State>, spec: Option<map<string, string>>) returns (u: Option<Unikontainer>)
      ensures u.Some? <==>
                stateFile.Some? && "com.urunc.unikernel.unikernelType" in stateFile.value.annotations
                && stateFile.value.annotations["com.urunc.unikernel.unikernelType"] != "" && spec.Some?
      ensures u.Some? ==>
                fresh(u.value) && u.value.Held() == stateFile.value && u.value.specAnnotations == spec.value
                && u.value.uruncCfg == FromMap(stateFile.value.annotations)
    {
      hide FromMap;
      if stateFile.None? {
        return None;
      }
      var stored := stateFile.value;
      if ANNOT_TYPE !in stored.annotations || stored.annotations[ANNOT_TYPE] == "" {
        return None;
      }
      if spec.None? {
        return None;
      }
      var cfg := UruncConfigFromMap(stored.annotations);
      var loaded := new Unikontainer.Load(stored, cfg, spec.value);
      return Some(loaded);
    }

    function Held(): State
      reads this
    {
      State(status, pid, annotations)
    }

    /** `saveContainerState`: the loop visits the annotations of the spec in any order. */
    method SaveContainerState(fails: bool) returns (stored: Option<State>)
      modifies this`annotations
      ensures annotations == Propagated(old(annotations), specAnnotations)
      ensures stored == if fails then None else Some(Held())
    {
      hide Propagates;
      var keys := specAnnotations.Keys;
      VisitedEnds(specAnnotations);
      assert Propagated(annotations, map[]) == annotations;
      while keys != {}
        invariant keys <= specAnnotations.Keys
        invariant annotations == Propagated(old(annotations), Visited(specAnnotations, keys))
        decreases |keys|
      {
        var key :| key in keys;
        VisitedStep(specAnnotations, keys, key);
        PropagatedStep(old(annotations), Visited(specAnnotations, keys), key, specAnnotations[key]);
        keys := keys - {key};
        if HasPrefix(key, URUNC_PREFIX) {
          continue;
        }
        if key !in annotations {
          annotations := annotations[key := specAnnotations[key]];
        }
      }
      stored := if fails then None else Some(Held());
    }

    /** `Create`: nothing changes if the pid file cannot be written. */
    method Create(pid: int, pidFileFails: bool, fails: bool) returns (stored: Option<State>)
      modifies this`status, this`pid, this`annotations
      ensures Held() == if pidFileFails then old(Held())
                        else State(Handshake.Created, pid, Propagated(old(annotations), specAnnotations))
      ensures stored == if pidFileFails || fails then None else Some(Held())
    {
      if pidFileFails {
        return None;
      }
      this.pid := pid;
      status := Handshake.Created;
      stored := SaveContainerState(fails);
    }

    /** `SetRunningState` */
    method SetRunningState(fails: bool) returns (stored: Option<State>)
      modifies this`status, this`annotations
      ensures Held() == State(Handshake.Running, old(pid), Propagated(old(annotations), specAnnotations))
      ensures stored == if fails then None else Some(Held())
    {
      status := Handshake.Running;
      stored := SaveContainerState(fails);
    }
  }

  lemma PropagatedStep(annotations: map<string, string>, spec: map<string, string>, key: string, val: string)
    requires key !in spec
    ensures Propagated(annotations, spec[key := val]) ==
            if HasPrefix(key, URUNC_PREFIX) || key in Propagated(annotations, spec) then Propagated(annotations, spec)
            else Propagated(annotations, spec)[key := val]
  {
    hide HasPrefix;
  }

  /** Any number of saves, each by a process that has loaded the state and whatever the spec was then. */
  function AfterSaves(annotations: map<string, string>, specs: seq<map<string, string>>): map<string, string>
    decreases |specs|
  {
    if specs == [] then annotations else AfterSaves(Propagated(annotations, specs[0]), specs[1..])
  }

  /** What is recorded stays recorded. */
  lemma {:induction false} RecordedStays(annotations: map<string, string>, specs: seq<map<string, string>>, key: string)
    requires key in annotations
    ensures key in AfterSaves(annotations, specs) && AfterSaves(annotations, specs)[key] == annotations[key]
    decreases |specs|
  {
    if specs != [] {
      RecordedStays(Propagated(annotations, specs[0]), specs[1..], key);
    }
  }

  /** A key that a save adds comes from a spec, and none of urunc's own annotations is added. */
  lemma {:induction false} AddedComesFromSpec(annotations: map<string, string>, specs: seq<map<string, string>>,
                                              key: string)
    requires key in AfterSaves(annotations, specs) && key !in annotations
    ensures Propagates(key) && exists i :: 0 <= i < |specs| && key in specs[i]
    decreases |specs|
  {
    hide Propagates;
    if specs != [] {
      var next := Propagated(annotations, specs[0]);
      if key !in next {
        AddedComesFromSpec(next, specs[1..], key);
        var i :| 0 <= i < |specs[1..]| && key in specs[1..][i];
        assert specs[i + 1] == specs[1..][i];
      }
    }
  }

  /** An annotation of urunc itself: the text before the last part of the key is "com.urunc.unikernel". */
  ghost predicate IsUruncKey(key: string) {
    exists rest :: key == "com.urunc.unikernel." + rest
  }

  lemma PropagatesExactly(key: string)
    ensures Propagates(key) <==> !IsUruncKey(key)
  {
    var prefix := "com.urunc.unikernel.";
    if HasPrefix(key, prefix) {
      assert key == prefix + key[|prefix|..];
    }
    if IsUruncKey(key) {
      var rest :| key == prefix + rest;
      assert key[..|prefix|] == prefix;
    }
  }

  /** The first spec that has the key. */
  ghost predicate FirstWith(specs: seq<map<string, string>>, key: string, i: int) {
    0 <= i < |specs| && key in specs[i] && forall j :: 0 <= j < i ==> key !in specs[j]
  }

  /** Exactly what is recorded after any number of saves: what was recorded before, and under each other key that is
      not one of urunc's the value of the first spec that has it. */
  lemma {:induction false} SavedExactly(annotations: map<string, string>, specs: seq<map<string, string>>, key: string)
    ensures var saved := AfterSaves(annotations, specs);
            key in saved <==> key in annotations || (!IsUruncKey(key) && exists i :: FirstWith(specs, key, i))
    ensures var saved := AfterSaves(annotations, specs);
            (key in annotations ==> key in saved && saved[key] == annotations[key])
            && forall i :: FirstWith(specs, key, i) && key !in annotations && !IsUruncKey(key) ==>
                 key in saved && saved[key] == specs[i][key]
    decreases |specs|
  {
    PropagatesExactly(key);
    hide Propagates, IsUruncKey;
    if specs != [] {
      var next, rest := Propagated(annotations, specs[0]), specs[1..];
      SavedExactly(next, rest, key);
      hide AfterSaves;
      if key !in specs[0] {
        forall i ensures FirstWith(specs, key, i) <==> FirstWith(rest, key, i - 1) {
          FirstWithRest(specs, key, i);
        }
        assert forall i | FirstWith(specs, key, i) :: specs[i] == rest[i - 1];
        if i :| FirstWith(rest, key, i) {
          assert FirstWith(specs, key, i + 1);
        }
        hide FirstWith;
      } else {
        assert FirstWith(specs, key, 0);
        assert forall i | FirstWith(specs, key, i) :: i == 0;
      }
    }
  }

  lemma FirstWithRest(specs: seq<map<string, string>>, key: string, i: int)
    requires specs != [] && key !in specs[0]
    ensures FirstWith(specs, key, i) <==> FirstWith(specs[1..], key, i - 1)
  {
    var rest := specs[1..];
    assert forall j | 0 <= j < |rest| :: specs[j + 1] == rest[j];
    if FirstWith(specs, key, i) {
      forall j | 0 <= j < i - 1 ensures key !in rest[j] {
        assert key !in specs[j + 1];
      }
    }
    if FirstWith(rest, key, i - 1) {
      forall j | 0 <= j < i ensures key !in specs[j] {
        assert j > 0 ==> specs[j] == rest[j - 1];
      }
    }
  }

  lemma ValueStays(cfg: Config, flat: map<string, string>, unikernel: map<string, string>,
                   specs: seq<map<string, string>>, s: Slot)
    requires IsMapOf(cfg, flat) && ValueAt(cfg, s).Some?
    ensures Get(AfterSaves(unikernel + flat, specs), s) == ValueAt(cfg, s)
  {
    hide SlotKey, ValueAt;
    assert Get(flat, s) == ValueAt(cfg, s);
    RecordedStays(unikernel + flat, specs, SlotKey(s));
  }

  /** After any number of saves and loads, with any annotations in the specs, the runtime options and every
      monitor and extra binary recorded at create are rebuilt as they would be right away. */
  lemma RecordedSettingsSurvive(cfg: Config, flat: map<string, string>, unikernel: map<string, string>,
                                specs: seq<map<string, string>>, name: string)
    requires IsMapOf(cfg, flat)
    ensures var rebuilt := FromMap(AfterSaves(unikernel + flat, specs));
            && rebuilt.runtime == cfg.runtime
            && (name in cfg.monitors && NoDot(name) ==>
                  name in rebuilt.monitors && rebuilt.monitors[name] == RestoredMonitor(name, cfg.monitors[name]))
            && (name in cfg.extraBins && NoDot(name) ==>
                  name in rebuilt.extraBins && rebuilt.extraBins[name] == cfg.extraBins[name])
  {
    hide IsMapOf, Get, SlotKey, MonitorIn, ExtraBinIn, RuntimeIn, RestoredMonitor, NoDot, NamesIn, DefaultMonitors,
      DefaultExtraBins, AfterSaves, FormatBool, FormatUint;
    var ann := AfterSaves(unikernel + flat, specs);
    ValueStays(cfg, flat, unikernel, specs, RuntimeSlot(Libcontainer));
    ValueStays(cfg, flat, unikernel, specs, RuntimeSlot(VAccel));
    RuntimeReadBack(ann, cfg.runtime);
    if name in cfg.monitors && NoDot(name) {
      var m := cfg.monitors[name];
      forall f | MonitorText(m, f).Some? ensures Get(ann, Slot(Monitors, name, f)) == MonitorText(m, f) {
        ValueStays(cfg, flat, unikernel, specs, Slot(Monitors, name, f));
      }
      MonitorReadBack(ann, name, m);
      assert MonitorText(m, Vhost).Some?;
      EntryGivesName(ann, Monitors, name, Vhost);
    }
    if name in cfg.extraBins && NoDot(name) {
      var b := cfg.extraBins[name];
      forall f | ExtraBinText(b, f).Some? ensures Get(ann, Slot(ExtraBinaries, name, f)) == ExtraBinText(b, f) {
        ValueStays(cfg, flat, unikernel, specs, Slot(ExtraBinaries, name, f));
      }
      ExtraBinReadBack(ann, name, b);
      assert ExtraBinText(b, Path).Some?;
      EntryGivesName(ann, ExtraBinaries, name, Path);
    }
  }
}

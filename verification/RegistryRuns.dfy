/**
 What the registry of src/vips.rs keeps over any sequence of changes and
 restarts: every entry is what its spec determines, a refused change changes
 nothing, and the running VIPs, the pending ones and the state file together
 are one map from names to specs.
 */
module RegistryRuns {
  import opened Bytes
  import opened Pool
  import opened Registry

  // ----- well-formedness -------------------------------------------------------------

  /** The entry is what its spec determines. */
  predicate EntryOk(e: Entry) {
    && Check(e.spec).Ok?
    && var c := Check(e.spec).value;
       && e.listen == c.listen && e.members == Dedup(c.backends) && e.checker == e.spec.health
       && (if e.spec.vrrp.Some?
           then e.vrrp.Some? && c.vrrpVip == Some(e.vrrp.value.vip) && e.vrrp.value.spec == e.spec.vrrp.value
           else e.vrrp == None)
  }

  ghost predicate ListenersDistinct(vips: map<Name, Entry>) {
    forall a, b :: a in vips && b in vips && a != b ==> vips[a].listen != vips[b].listen
  }

  /** No VRRP loop belongs to two VIPs. */
  ghost predicate LoopsDistinct(vips: map<Name, Entry>) {
    forall a, b :: a in vips && b in vips && a != b ==> Ids(vips[a].vrrp) !! Ids(vips[b].vrrp)
  }

  /** The loops running are the entries' own: none is lost, none runs on. */
  ghost predicate LoopsAccounted(r: Reg) {
    && r.running == AllIds(r.vips)
    && (forall id :: id in r.running ==> id < r.nextId)
  }

  /** The config file has one VIP, and it has its name. */
  predicate ConfigNamed(vips: map<Name, Entry>) {
    forall n :: n in vips && vips[n].fromConfig ==> n == CONFIG_VIP
  }

  /** What holds whatever the world answers. */
  ghost predicate Sound(r: Reg) {
    ConfigNamed(r.vips) && ListenersDistinct(r.vips) && LoopsDistinct(r.vips) && LoopsAccounted(r)
  }

  predicate EntriesOk(vips: map<Name, Entry>) {
    forall n :: n in vips ==> EntryOk(vips[n])
  }

  ghost predicate WellFormed(r: Reg) {
    Sound(r) && EntriesOk(r.vips)
  }

  /** Setting a health spec answers as the test before it did. */
  predicate Agrees(env: Env) {
    env.setSpecOk == env.healthOk
  }

  lemma CheckStarts(s: VipSpec)
    requires Check(s).Ok?
    ensures Check(s).value.vrrpVip.Some? <==> s.vrrp.Some?
  {
  }

  lemma IdOwner(vips: map<Name, Entry>, id: nat)
    ensures id in AllIds(vips) <==> exists n :: n in vips && id in Ids(vips[n].vrrp)
  {
  }

  lemma IdsUpdated(vips: map<Name, Entry>, name: Name, e: Entry)
    requires LoopsDistinct(vips)
    ensures AllIds(vips[name := e]) == AllIds(vips) - (if name in vips then Ids(vips[name].vrrp) else {}) + Ids(e.vrrp)
  {
    var vips' := vips[name := e];
    var gone := if name in vips then Ids(vips[name].vrrp) else {};
    forall id
      ensures id in AllIds(vips') <==> id in AllIds(vips) - gone + Ids(e.vrrp)
    {
      IdOwner(vips, id);
      IdOwner(vips', id);
      if n :| n in vips' && id in Ids(vips'[n].vrrp) {
        assert n != name ==> n in vips && id in Ids(vips[n].vrrp);
      }
      if id in AllIds(vips) - gone {
        var n :| n in vips && id in Ids(vips[n].vrrp);
        assert n in vips' && id in Ids(vips'[n].vrrp);
      }
      if id in Ids(e.vrrp) {
        assert name in vips' && id in Ids(vips'[name].vrrp);
      }
    }
  }

  lemma IdsRemoved(vips: map<Name, Entry>, name: Name)
    requires LoopsDistinct(vips) && name in vips
    ensures AllIds(vips - {name}) == AllIds(vips) - Ids(vips[name].vrrp)
  {
    var vips' := vips - {name};
    forall id
      ensures id in AllIds(vips') <==> id in AllIds(vips) - Ids(vips[name].vrrp)
    {
      IdOwner(vips, id);
      IdOwner(vips', id);
      if n :| n in vips' && id in Ids(vips'[n].vrrp) {
        assert n in vips && id in Ids(vips[n].vrrp);
      }
      if id in AllIds(vips) - Ids(vips[name].vrrp) {
        var n :| n in vips && id in Ids(vips[n].vrrp);
        assert n in vips' && id in Ids(vips'[n].vrrp);
      }
    }
  }

  /** An entry whose loop is its old one, or a new one, keeps the loops apart. */
  lemma LoopsApart(r: Reg, name: Name, e: Entry)
    requires LoopsDistinct(r.vips) && LoopsAccounted(r)
    requires forall id :: id in Ids(e.vrrp) ==> id >= r.nextId || (name in r.vips && id in Ids(r.vips[name].vrrp))
    ensures LoopsDistinct(r.vips[name := e])
  {
    forall n | n in r.vips && n != name
      ensures Ids(r.vips[n].vrrp) !! Ids(e.vrrp)
    {
      forall id | id in Ids(r.vips[n].vrrp)
        ensures id !in Ids(e.vrrp)
      {
        IdOwner(r.vips, id);
        assert id in r.running;
      }
    }
  }

  lemma ListenersKept(vips: map<Name, Entry>, name: Name, e: Entry)
    requires ListenersDistinct(vips) && !ListenTaken(vips, name, e.listen)
    ensures ListenersDistinct(vips[name := e])
  {
    var vips' := vips[name := e];
    forall a, b | a in vips' && b in vips' && a != b
      ensures vips'[a].listen != vips'[b].listen
    {
      if a == name {
        assert vips[b].listen != e.listen;
      } else if b == name {
        assert vips[a].listen != e.listen;
      }
    }
  }

  lemma EntryMade(s: VipSpec, fromConfig: bool, c: Checked, id: nat)
    requires Check(s) == Ok(c)
    ensures EntryOk(Entry(s, fromConfig, c.listen, Dedup(c.backends), s.health, StartVrrp(id, s, c.vrrpVip)))
  {
    CheckStarts(s);
  }

  /** Keeping the loop is right exactly because it depends on nothing but the settings and the address. */
  lemma EntryRemade(r: Reg, was: Entry, s: VipSpec, c: Checked)
    requires Check(s) == Ok(c) && EntryOk(was)
    ensures EntryOk(Entry(s, was.fromConfig, c.listen, Dedup(c.backends), s.health, VrrpAfter(r, was, s, c)))
  {
    CheckStarts(s);
    CheckStarts(was.spec);
  }

  /** An entry installed under a name, its loop accounted for. */
  lemma InstalledSound(r: Reg, name: Name, e: Entry, r': Reg)
    requires Sound(r) && !ListenTaken(r.vips, name, e.listen)
    requires e.fromConfig ==> name == CONFIG_VIP
    requires forall id :: id in Ids(e.vrrp) ==> id >= r.nextId || (name in r.vips && id in Ids(r.vips[name].vrrp))
    requires r'.vips == r.vips[name := e]
    requires r'.running == r.running - (if name in r.vips then Ids(r.vips[name].vrrp) else {}) + Ids(e.vrrp)
    requires r'.nextId >= r.nextId && forall id :: id in Ids(e.vrrp) ==> id < r'.nextId
    ensures Sound(r')
  {
    ListenersKept(r.vips, name, e);
    LoopsApart(r, name, e);
    IdsUpdated(r.vips, name, e);
  }

  lemma CreatedSound(r: Reg, name: Name, s: VipSpec, fromConfig: bool, c: Checked)
    requires Sound(r) && name !in r.vips && !ListenTaken(r.vips, name, c.listen)
    requires fromConfig ==> name == CONFIG_VIP
    ensures Sound(Created(r, name, s, fromConfig, c))
  {
    InstalledSound(r, name, Created(r, name, s, fromConfig, c).vips[name], Created(r, name, s, fromConfig, c));
  }

  lemma OwnLoopsRun(r: Reg, name: Name)
    requires LoopsAccounted(r) && name in r.vips
    ensures Ids(r.vips[name].vrrp) <= r.running
    ensures forall id :: id in Ids(r.vips[name].vrrp) ==> id < r.nextId
  {
    forall id | id in Ids(r.vips[name].vrrp)
      ensures id in r.running
    {
      IdOwner(r.vips, id);
    }
  }

  /** The loop kept or put in place of the old one: whose it is, and what runs then. */
  lemma ReplacedLoops(r: Reg, name: Name, s: VipSpec, c: Checked)
    requires LoopsAccounted(r) && name in r.vips
    ensures var was, r' := r.vips[name], Replaced(r, name, r.vips[name], s, c);
      && r'.running == r.running - Ids(was.vrrp) + Ids(r'.vips[name].vrrp)
      && r'.nextId >= r.nextId
      && (forall id :: id in Ids(r'.vips[name].vrrp) ==> id < r'.nextId && (id >= r.nextId || id in Ids(was.vrrp)))
  {
    OwnLoopsRun(r, name);
  }

  lemma ReplacedSound(r: Reg, name: Name, s: VipSpec, c: Checked)
    requires Sound(r) && name in r.vips && !ListenTaken(r.vips, name, c.listen)
    ensures Sound(Replaced(r, name, r.vips[name], s, c))
  {
    var r' := Replaced(r, name, r.vips[name], s, c);
    ReplacedLoops(r, name, s, c);
    InstalledSound(r, name, r'.vips[name], r');
  }

  /** A change that fails half-way has moved to a listener nobody has, and has kept its loop. */
  lemma MovedSound(r: Reg, name: Name, c: Checked)
    requires Sound(r) && name in r.vips && !ListenTaken(r.vips, name, c.listen)
    ensures Sound(r.(vips := r.vips[name := Moved(r.vips[name], c)]))
  {
    OwnLoopsRun(r, name);
    InstalledSound(r, name, Moved(r.vips[name], c), r.(vips := r.vips[name := Moved(r.vips[name], c)]));
  }

  lemma PutSound(r: Reg, name: Name, s: VipSpec, fromConfig: bool, env: Env)
    requires Sound(r) && (fromConfig ==> name == CONFIG_VIP)
    ensures Sound(Put(r, name, s, fromConfig, env).0)
  {
    if Check(s).Ok? && !ListenTaken(r.vips, name, Check(s).value.listen) {
      var c := Check(s).value;
      if name in r.vips {
        ReplacedSound(r, name, s, c);
        MovedSound(r, name, c);
      } else {
        CreatedSound(r, name, s, fromConfig, c);
      }
    }
  }

  /** Where setting a health spec answers as the test before it did, entries stay what their specs determine. */
  lemma PutEntriesOk(r: Reg, name: Name, s: VipSpec, fromConfig: bool, env: Env)
    requires EntriesOk(r.vips) && Agrees(env)
    ensures EntriesOk(Put(r, name, s, fromConfig, env).0.vips)
  {
    if Put(r, name, s, fromConfig, env).1.Ok? {
      var c := Check(s).value;
      if name in r.vips {
        EntryRemade(r, r.vips[name], s, c);
      } else {
        EntryMade(s, fromConfig, c, r.nextId);
      }
    }
  }

  /**
   Whatever fails, a put keeps listeners distinct and the running loops the
   entries' own; where the health answers agree it keeps the entries too.
   */
  lemma PutWellFormed(r: Reg, name: Name, s: VipSpec, fromConfig: bool, env: Env)
    requires Sound(r) && (fromConfig ==> name == CONFIG_VIP)
    ensures Sound(Put(r, name, s, fromConfig, env).0)
    ensures EntriesOk(r.vips) && Agrees(env) ==> WellFormed(Put(r, name, s, fromConfig, env).0)
  {
    PutSound(r, name, s, fromConfig, env);
    if EntriesOk(r.vips) && Agrees(env) {
      PutEntriesOk(r, name, s, fromConfig, env);
    }
  }

  lemma RemovedSound(r: Reg, name: Name)
    requires Sound(r) && name in r.vips
    ensures Sound(r.(vips := r.vips - {name}, running := r.running - Ids(r.vips[name].vrrp)))
  {
    IdsRemoved(r.vips, name);
    var vips' := r.vips - {name};
    assert forall n :: n in vips' ==> n in r.vips && vips'[n] == r.vips[n];
  }

  predicate IsBackend(bs: seq<BackendSpec>, a: SocketAddr) {
    exists k :: 0 <= k < |bs| && bs[k].address == Parses(a.ip) && bs[k].port == a.port
  }

  /** A running entry listens, balances and holds the address as its spec says. */
  lemma EntryAsSaid(r: Reg, name: Name)
    requires EntriesOk(r.vips) && name in r.vips
    ensures var e := r.vips[name];
      && SpecGood(e.spec) && ListensAsSaid(e.spec, e.listen) && e.checker == e.spec.health
      && (forall a :: a in e.members <==> IsBackend(e.spec.backends, a))
      && (e.vrrp.Some? <==> e.spec.vrrp.Some?)
      && (e.vrrp.Some? ==> e.vrrp.value.spec == e.spec.vrrp.value && V4(e.vrrp.value.vip) == e.spec.address.ip)
  {
    var e := r.vips[name];
    CheckedExactlyWhen(e.spec);
    MembersAsSaid(e.spec);
  }

  lemma MembersAsSaid(s: VipSpec)
    requires Check(s).Ok?
    ensures forall a :: a in Dedup(Check(s).value.backends) <==> IsBackend(s.backends, a)
  {
    CheckedExactlyWhen(s);
    var bs := Check(s).value.backends;
    forall a
      ensures a in bs <==> IsBackend(s.backends, a)
    {
      if IsBackend(s.backends, a) {
        var k :| 0 <= k < |s.backends| && s.backends[k].address == Parses(a.ip) && s.backends[k].port == a.port;
        assert bs[k] == a;
      }
    }
  }

  /**
   The VRRP loop of a VIP that is changed: the same one runs on exactly if its
   settings and the address are the same; else it is told to stop, and a new
   one runs in its place if the spec has one.
   */
  lemma LoopKeptExactlyWhen(r: Reg, name: Name, s: VipSpec, env: Env)
    requires Sound(r) && name in r.vips && Put(r, name, s, false, env).1.Ok?
    ensures var (r', was) := (Put(r, name, s, false, env).0, r.vips[name]);
      var now := r'.vips[name];
      && (s.vrrp == was.spec.vrrp && s.address == was.spec.address ==>
            now.vrrp == was.vrrp && r'.running == r.running && r'.nextId == r.nextId)
      && (s.vrrp != was.spec.vrrp || s.address != was.spec.address ==>
            && (was.vrrp.Some? ==> was.vrrp.value.id in r.running && was.vrrp.value.id !in r'.running)
            && (now.vrrp.Some? <==> s.vrrp.Some?)
            && (now.vrrp.Some? ==>
                  && now.vrrp.value.id !in r.running && now.vrrp.value.id in r'.running
                  && now.vrrp.value.spec == s.vrrp.value && V4(now.vrrp.value.vip) == s.address.ip))
  {
    CheckedExactlyWhen(s);
    OwnLoopsRun(r, name);
  }

  /** A VIP applied again as it is runs on as it is: same listener, members and loop, whatever binds. */
  lemma ReapplyChangesNothing(r: Reg, name: Name, env: Env)
    requires WellFormed(r) && ValidName(name) && name in r.vips && !r.vips[name].fromConfig
    requires env.healthOk && env.setSpecOk
    ensures var (r', res) := Apply(r, name, r.vips[name].spec, env);
      && r'.vips == r.vips && r'.running == r.running && r'.nextId == r.nextId
      && res == if r.hasFile && !env.saveOk then Err(NotSaved) else Ok(false)
  {
    var e := r.vips[name];
    assert EntryOk(e);
    assert r.vips[name := e] == r.vips;
  }

  // ----- a refused change -----------------------------------------------------------------

  /** What runs, what is pending and what is saved are as before. */
  predicate Unchanged(r: Reg, r': Reg) {
    r == r'
  }

  /**
   A refused change leaves the whole registry as it was, except exactly when
   the health client built for the test but not for the change, after the
   listener or the members of a running VIP had already been replaced by
   different ones.
   */
  lemma RefusedChangesNothing(r: Reg, name: Name, s: VipSpec, env: Env)
    requires Apply(r, name, s, env).1 in {Err(Invalid), Err(Conflict), Err(NotFound)}
    ensures Unchanged(r, Apply(r, name, s, env).0) <==>
      !(&& ValidName(name) && name in r.vips && !IsConfigVip(r, name)
        && Check(s).Ok? && !ListenTaken(r.vips, name, Check(s).value.listen)
        && env.healthOk && !env.setSpecOk
        && (Check(s).value.listen == r.vips[name].listen || env.bindOk)
        && (Check(s).value.listen != r.vips[name].listen || Dedup(Check(s).value.backends) != r.vips[name].members))
  {
    if Check(s).Ok? && name in r.vips {
      var e, e' := r.vips[name], Moved(r.vips[name], Check(s).value);
      if e == e' {
        assert r.vips[name := e'] == r.vips;
      } else {
        assert r.vips[name := e'][name] != r.vips[name];
      }
    }
  }

  /**
   Exactly when an apply takes effect, and what it answers: whether the VIP
   was created. Exactly the config file's VIP and a listener that is taken or
   cannot be bound are conflicts; all else that is refused is invalid.
   */
  lemma ApplyAcceptedExactlyWhen(r: Reg, name: Name, s: VipSpec, env: Env)
    ensures Accepted(Apply(r, name, s, env).1) <==>
      && ValidName(name) && !IsConfigVip(r, name)
      && Check(s).Ok? && !ListenTaken(r.vips, name, Check(s).value.listen)
      && env.healthOk && (name in r.vips ==> env.setSpecOk)
      && ((name in r.vips && Check(s).value.listen == r.vips[name].listen) || env.bindOk)
    ensures Apply(r, name, s, env).1.Ok? ==> Apply(r, name, s, env).1.value == (name !in r.vips)
    ensures Apply(r, name, s, env).1 == Err(Conflict) <==>
      && ValidName(name)
      && (IsConfigVip(r, name)
          || (Check(s).Ok?
              && (ListenTaken(r.vips, name, Check(s).value.listen)
                  || (env.healthOk && !env.bindOk && !(name in r.vips && Check(s).value.listen == r.vips[name].listen)))))
    ensures Apply(r, name, s, env).1 == Err(NotSaved) <==>
      Accepted(Apply(r, name, s, env).1) && r.hasFile && !env.saveOk
    ensures Apply(r, name, s, env).1 != Err(NotFound)
  {
    if Check(s).Ok? && name in r.vips {
      var e := r.vips[name];
      assert Check(s).value.listen == e.listen || Check(s).value.listen != e.listen;
    }
  }

  /** A removal that fails changes nothing, unless it is only that the file could not be written. */
  lemma RefusedRemoveChangesNothing(r: Reg, name: Name, env: Env)
    requires Remove(r, name, env).1 in {Err(Conflict), Err(NotFound)}
    ensures Unchanged(r, Remove(r, name, env).0)
    ensures name !in ApiSpecs(r) && (name !in r.pending || IsConfigVip(r, name))
  {
  }

  /** Exactly when a removal takes effect: for an API VIP that runs or is pending. */
  lemma RemoveAcceptedExactlyWhen(r: Reg, name: Name, env: Env)
    ensures Accepted(Remove(r, name, env).1) <==> name in ApiSpecs(r) || (name !in r.vips && name in r.pending)
    ensures Remove(r, name, env).1 == Err(Conflict) <==> IsConfigVip(r, name)
    ensures Remove(r, name, env).1 == Err(NotFound) <==> name !in r.vips && name !in r.pending
    ensures Remove(r, name, env).1 == Err(NotSaved) <==> Accepted(Remove(r, name, env).1) && r.hasFile && !env.saveOk
  {
  }

  /** A put touches its own VIP only, and neither what is pending nor the file. */
  lemma PutFrame(r: Reg, name: Name, s: VipSpec, fromConfig: bool, env: Env)
    ensures var r' := Put(r, name, s, fromConfig, env).0;
      && r'.pending == r.pending && r'.file == r.file && r'.hasFile == r.hasFile
      && r'.vips.Keys <= r.vips.Keys + {name}
      && (forall n :: n in r.vips ==> n in r'.vips && (n != name ==> r'.vips[n] == r.vips[n]))
  {
  }

  /** The config file's VIP is out of reach of both. */
  lemma ConfigVipUntouched(r: Reg, config: Name, name: Name, s: VipSpec, env: Env)
    requires IsConfigVip(r, config)
    ensures IsConfigVip(Apply(r, name, s, env).0, config)
    ensures Apply(r, name, s, env).0.vips[config] == r.vips[config]
    ensures IsConfigVip(Remove(r, name, env).0, config)
    ensures Remove(r, name, env).0.vips[config] == r.vips[config]
  {
    PutFrame(r, name, s, false, env);
    RemoveFrame(r, config, name, env);
  }

  lemma RemoveFrame(r: Reg, config: Name, name: Name, env: Env)
    requires IsConfigVip(r, config)
    ensures config in Remove(r, name, env).0.vips && Remove(r, name, env).0.vips[config] == r.vips[config]
  {
  }

  // ----- the map it all stands for ----------------------------------------------------------

  /**
   The simple view: `want` maps each API VIP to the spec last accepted for
   it, `disk` is `want` as of the last successful save.
   */
  datatype Abstract = Abstract(want: map<Name, VipSpec>, disk: map<Name, VipSpec>)

  function OnDisk(r: Reg): map<Name, VipSpec> {
    if r.file.Some? then r.file.value else map[]
  }

  /** The registry stands for the abstract map: no name both runs and is pending, and the rest agrees. */
  ghost predicate Stands(r: Reg, a: Abstract) {
    && ApiSpecs(r).Keys !! r.pending.Keys
    && ToSave(r) == a.want
    && OnDisk(r) == a.disk
    && (r.file.Some? ==> r.hasFile)
  }

  datatype Op =
    | ApplyOp(name: Name, spec: VipSpec, env: Env)
    | RemoveOp(name: Name, env: Env)
    | RestartOp(config: Option<VipSpec>, configEnv: Env, readOk: bool, names: seq<Name>, envs: map<Name, Env>)

  /** The new process: the config file's VIP first, then the saved ones in the order `names`. */
  function Started(r: Reg, config: Option<VipSpec>, configEnv: Env): (Reg, Result<bool>) {
    var empty := Reg(map[], map[], r.hasFile, r.file, {}, 0);
    if config.Some? then Put(empty, CONFIG_VIP, config.value, true, configEnv) else (empty, Ok(false))
  }

  ghost predicate CanDo(r: Reg, op: Op) {
    match op
    case ApplyOp(_, _, _) => true
    case RemoveOp(_, _) => true
    case RestartOp(config, configEnv, _, names, envs) =>
      && Started(r, config, configEnv).1.Ok?
      && Enumerates(names, OnDisk(r))
      && (forall n :: n in names ==> n in envs)
  }

  /** No health client that builds for a test fails to build for the change. */
  predicate Agree(op: Op) {
    match op
    case ApplyOp(_, _, env) => Agrees(env)
    case RemoveOp(_, _) => true
    case RestartOp(_, _, _, names, envs) => forall n :: n in names && n in envs ==> Agrees(envs[n])
  }

  function Do(r: Reg, op: Op): Reg
    requires op.RestartOp? ==> forall n :: n in op.names ==> n in OnDisk(r) && n in op.envs
  {
    match op
    case ApplyOp(name, s, env) => Apply(r, name, s, env).0
    case RemoveOp(name, env) => Remove(r, name, env).0
    case RestartOp(_, _, _, _, _) => Restart(r, op)
  }

  function Restart(r: Reg, op: Op): Reg
    requires op.RestartOp? && forall n :: n in op.names ==> n in OnDisk(r) && n in op.envs
  {
    StartedFile(r, op.config, op.configEnv);
    var r0 := Started(r, op.config, op.configEnv).0;
    assert r.file.Some? ==> OnDisk(r) == r.file.value;
    Load(r0, op.readOk, op.names, op.envs)
  }

  lemma StartedFile(r: Reg, config: Option<VipSpec>, configEnv: Env)
    ensures var r0 := Started(r, config, configEnv).0;
      r0.file == r.file && r0.hasFile == r.hasFile
  {
  }

  /** A saved VIP `default` was put over the config file's. */
  predicate Overwrote(r: Reg, op: Op)
    requires op.RestartOp? && forall n :: n in op.names ==> n in OnDisk(r) && n in op.envs
  {
    op.readOk && Overwrites(Started(r, op.config, op.configEnv).0, OnDisk(r), op.names, op.envs)
  }

  /** A change took effect: it was accepted, saved or not. */
  predicate Accepted<T>(res: Result<T>) {
    res.Ok? || res == Err(NotSaved)
  }

  /** How an operation went: a change was accepted, it was saved; a restart lost the saved `default`. */
  datatype Outcome = Outcome(accepted: bool, saved: bool, lost: bool)

  /** What a restart makes of the saved map. */
  function Reloaded(disk: map<Name, VipSpec>, readOk: bool, lost: bool): map<Name, VipSpec> {
    if !readOk then map[] else if lost then disk - {CONFIG_VIP} else disk
  }

  /** The same operation on the simple view, given only how it went. */
  function DoAbstract(a: Abstract, op: Op, o: Outcome): Abstract {
    match op
    case ApplyOp(name, s, _) => if o.accepted then Changed(a, a.want[name := s], o.saved) else a
    case RemoveOp(name, _) => if o.accepted then Changed(a, a.want - {name}, o.saved) else a
    case RestartOp(_, _, readOk, _, _) => Abstract(Reloaded(a.disk, readOk, o.lost), a.disk)
  }

  function Changed(a: Abstract, want: map<Name, VipSpec>, saved: bool): Abstract {
    Abstract(want, if saved then want else a.disk)
  }

  ghost function Went(r: Reg, op: Op): Outcome
    requires CanDo(r, op)
  {
    match op
    case ApplyOp(name, s, env) =>
      var res := Apply(r, name, s, env).1;
      Outcome(Accepted(res), r.hasFile && res.Ok?, false)
    case RemoveOp(name, env) =>
      var res := Remove(r, name, env).1;
      Outcome(Accepted(res), r.hasFile && res.Ok?, false)
    case RestartOp(_, _, _, _, _) => Outcome(true, false, Overwrote(r, op))
  }

  /** An accepted put installs one entry, with the spec given. */
  lemma PutInstalls(r: Reg, name: Name, s: VipSpec, env: Env)
    requires Put(r, name, s, false, env).1.Ok?
    ensures var r' := Put(r, name, s, false, env).0;
      && name in r'.vips && r'.vips == r.vips[name := r'.vips[name]]
      && r'.vips[name].spec == s && r'.vips[name].fromConfig == IsConfigVip(r, name)
  {
  }

  /** An accepted put of an API VIP adds its spec to those running. */
  lemma PutAddsSpec(r: Reg, name: Name, s: VipSpec, env: Env)
    requires Put(r, name, s, false, env).1.Ok? && !IsConfigVip(r, name)
    ensures ApiSpecs(Put(r, name, s, false, env).0) == ApiSpecs(r)[name := s]
  {
    PutInstalls(r, name, s, env);
    var r' := Put(r, name, s, false, env).0;
    SpecAdded(r, r', name, r'.vips[name]);
  }

  lemma SpecAdded(r: Reg, r': Reg, name: Name, e: Entry)
    requires r'.vips == r.vips[name := e] && !e.fromConfig
    ensures ApiSpecs(r') == ApiSpecs(r)[name := e.spec]
  {
  }

  /** Once the change stands, saving keeps it so, and brings the file up to date if it works. */
  lemma SaveStands(r: Reg, want: map<Name, VipSpec>, disk: map<Name, VipSpec>, ok: bool)
    requires Stands(r, Abstract(want, disk))
    ensures var (r', res) := Save(r, ok);
      Stands(r', Abstract(want, if r.hasFile && res.Ok? then want else disk))
  {
  }

  lemma AddedStands(r: Reg, r1: Reg, a: Abstract, name: Name, s: VipSpec)
    requires Stands(r, a)
    requires r1.pending == r.pending && r1.file == r.file && r1.hasFile == r.hasFile
    requires ApiSpecs(r1) == ApiSpecs(r)[name := s]
    ensures Stands(r1.(pending := r1.pending - {name}), Abstract(a.want[name := s], a.disk))
  {
    var r2 := r1.(pending := r1.pending - {name});
    assert ApiSpecs(r2) == ApiSpecs(r1);
    assert ToSave(r2) == ToSave(r)[name := s];
  }

  lemma ApplyRefines(r: Reg, a: Abstract, name: Name, s: VipSpec, env: Env)
    requires Stands(r, a)
    ensures var op := ApplyOp(name, s, env);
      Stands(Do(r, op), DoAbstract(a, op, Went(r, op)))
  {
    if ValidName(name) && !IsConfigVip(r, name) && Put(r, name, s, false, env).1.Ok? {
      var r1 := Put(r, name, s, false, env).0;
      PutFrame(r, name, s, false, env);
      PutAddsSpec(r, name, s, env);
      AddedStands(r, r1, a, name, s);
      SaveStands(r1.(pending := r1.pending - {name}), a.want[name := s], a.disk, env.saveOk);
    } else {
      ApplyRefused(r, a, name, s, env);
    }
  }

  /** A put that is refused, a listener moved or not, leaves every spec where it was. */
  lemma PutRefused(r: Reg, name: Name, s: VipSpec, env: Env)
    requires Put(r, name, s, false, env).1.Err?
    ensures var r' := Put(r, name, s, false, env).0;
      && ApiSpecs(r') == ApiSpecs(r) && r'.pending == r.pending
      && r'.file == r.file && r'.hasFile == r.hasFile
      && !Accepted(Put(r, name, s, false, env).1)
  {
    if Check(s).Ok? && name in r.vips {
      SpecsStay(r, name, Moved(r.vips[name], Check(s).value));
    }
  }

  lemma SpecsStay(r: Reg, name: Name, e: Entry)
    requires name in r.vips && e.spec == r.vips[name].spec && e.fromConfig == r.vips[name].fromConfig
    ensures ApiSpecs(r.(vips := r.vips[name := e])) == ApiSpecs(r)
  {
  }

  lemma ApplyRefused(r: Reg, a: Abstract, name: Name, s: VipSpec, env: Env)
    requires Stands(r, a)
    requires !ValidName(name) || IsConfigVip(r, name) || Put(r, name, s, false, env).1.Err?
    ensures Stands(Apply(r, name, s, env).0, a) && !Accepted(Apply(r, name, s, env).1)
  {
    if ValidName(name) && !IsConfigVip(r, name) {
      PutRefused(r, name, s, env);
    }
  }

  lemma DroppedStands(r: Reg, a: Abstract, name: Name)
    requires Stands(r, a) && name in r.vips && !r.vips[name].fromConfig
    ensures Stands(r.(vips := r.vips - {name}, running := r.running - Ids(r.vips[name].vrrp)), Abstract(a.want - {name}, a.disk))
  {
    var r' := r.(vips := r.vips - {name}, running := r.running - Ids(r.vips[name].vrrp));
    assert ApiSpecs(r') == ApiSpecs(r) - {name};
    assert ToSave(r') == ToSave(r) - {name};
  }

  lemma ForgottenStands(r: Reg, a: Abstract, name: Name)
    requires Stands(r, a) && name !in r.vips
    ensures Stands(r.(pending := r.pending - {name}), Abstract(a.want - {name}, a.disk))
  {
    var r' := r.(pending := r.pending - {name});
    assert ApiSpecs(r') == ApiSpecs(r);
    assert ToSave(r') == ToSave(r) - {name};
  }

  lemma RemoveRefines(r: Reg, a: Abstract, name: Name, env: Env)
    requires Stands(r, a)
    ensures var op := RemoveOp(name, env);
      Stands(Do(r, op), DoAbstract(a, op, Went(r, op)))
  {
    if name !in r.vips {
      if name in r.pending {
        ForgottenStands(r, a, name);
        SaveStands(r.(pending := r.pending - {name}), a.want - {name}, a.disk, env.saveOk);
      }
    } else if !r.vips[name].fromConfig {
      DroppedStands(r, a, name);
      SaveStands(r.(vips := r.vips - {name}, running := r.running - Ids(r.vips[name].vrrp)), a.want - {name}, a.disk, env.saveOk);
    }
  }

  // ----- restarting ------------------------------------------------------------------------------

  /** Loading puts the saved VIP `default` over the config file's. */
  predicate Overwrites(r: Reg, saved: map<Name, VipSpec>, names: seq<Name>, envs: map<Name, Env>)
    requires forall n :: n in names ==> n in saved && n in envs
  {
    |names| > 0 &&
    var init, last := names[..|names| - 1], names[|names| - 1];
    var before := LoadNames(r, saved, init, envs);
    || Overwrites(r, saved, init, envs)
    || (IsConfigVip(before, last) && Put(before, last, saved[last], false, envs[last]).1.Ok?)
  }

  /** The saved specs of `names`, without the one that went to the config file's VIP. */
  function Loaded(saved: map<Name, VipSpec>, names: seq<Name>, lost: bool): map<Name, VipSpec>
    requires forall n :: n in names ==> n in saved
  {
    map n | n in names && !(lost && n == CONFIG_VIP) :: saved[n]
  }

  /** One saved VIP loaded. */
  function LoadOne(r: Reg, name: Name, s: VipSpec, env: Env): Reg {
    var (r', put) := Put(r, name, s, false, env);
    if put.Ok? then r' else r'.(pending := r'.pending[name := s])
  }

  lemma PutKeepsConfigVip(r: Reg, name: Name, s: VipSpec, env: Env, n: Name)
    ensures IsConfigVip(Put(r, name, s, false, env).0, n) <==> IsConfigVip(r, n)
  {
    PutFrame(r, name, s, false, env);
  }

  lemma LoadOneWellFormed(r: Reg, name: Name, s: VipSpec, env: Env)
    requires Sound(r)
    ensures Sound(LoadOne(r, name, s, env))
    ensures EntriesOk(r.vips) && Agrees(env) ==> EntriesOk(LoadOne(r, name, s, env).vips)
  {
    PutWellFormed(r, name, s, false, env);
  }

  lemma LoadOneKeeps(r: Reg, name: Name, s: VipSpec, env: Env)
    requires name !in ApiSpecs(r) && name !in r.pending && ApiSpecs(r).Keys !! r.pending.Keys
    ensures var r' := LoadOne(r, name, s, env);
      var lost := IsConfigVip(r, name) && Put(r, name, s, false, env).1.Ok?;
      && ApiSpecs(r').Keys !! r'.pending.Keys
      && ToSave(r') == (if lost then ToSave(r) else ToSave(r)[name := s])
      && r'.file == r.file && r'.hasFile == r.hasFile
      && (IsConfigVip(r', CONFIG_VIP) <==> IsConfigVip(r, CONFIG_VIP))
  {
    if Put(r, name, s, false, env).1.Err? {
      PutRefused(r, name, s, env);
      PutKeepsConfigVip(r, name, s, env, CONFIG_VIP);
      StaysPending(Put(r, name, s, false, env).0, name, s);
    } else {
      LoadAccepted(r, name, s, env);
    }
  }

  lemma LoadAccepted(r: Reg, name: Name, s: VipSpec, env: Env)
    requires Put(r, name, s, false, env).1.Ok?
    requires name !in ApiSpecs(r) && name !in r.pending && ApiSpecs(r).Keys !! r.pending.Keys
    ensures var r' := Put(r, name, s, false, env).0;
      && ApiSpecs(r').Keys !! r'.pending.Keys
      && ToSave(r') == (if IsConfigVip(r, name) then ToSave(r) else ToSave(r)[name := s])
      && r'.file == r.file && r'.hasFile == r.hasFile
      && (IsConfigVip(r', CONFIG_VIP) <==> IsConfigVip(r, CONFIG_VIP))
  {
    var r' := Put(r, name, s, false, env).0;
    PutFrame(r, name, s, false, env);
    PutKeepsConfigVip(r, name, s, env, CONFIG_VIP);
    if IsConfigVip(r, name) {
      OverwriteDropsSpec(r, name, s, env);
    } else {
      PutAddsSpec(r, name, s, env);
      AddedToSave(r, r', name, s);
    }
  }

  lemma AddedToSave(r: Reg, r': Reg, name: Name, s: VipSpec)
    requires name !in r.pending && r'.pending == r.pending && ApiSpecs(r') == ApiSpecs(r)[name := s]
    ensures ToSave(r') == ToSave(r)[name := s]
  {
    assert r.pending + ApiSpecs(r)[name := s] == (r.pending + ApiSpecs(r))[name := s];
  }

  lemma StaysPending(r: Reg, name: Name, s: VipSpec)
    requires name !in ApiSpecs(r) && name !in r.pending && ApiSpecs(r).Keys !! r.pending.Keys
    ensures var r' := r.(pending := r.pending[name := s]);
      ApiSpecs(r') == ApiSpecs(r) && ToSave(r') == ToSave(r)[name := s]
  {
    assert ApiSpecs(r.(pending := r.pending[name := s])) == ApiSpecs(r);
  }

  /** Put over the config file's VIP, a saved spec is nobody's: neither an API VIP's nor pending. */
  lemma OverwriteDropsSpec(r: Reg, name: Name, s: VipSpec, env: Env)
    requires IsConfigVip(r, name) && Put(r, name, s, false, env).1.Ok?
    ensures ApiSpecs(Put(r, name, s, false, env).0) == ApiSpecs(r)
  {
    PutInstalls(r, name, s, env);
    SpecsSame(r, Put(r, name, s, false, env).0, name);
  }

  lemma SpecsSame(r: Reg, r': Reg, name: Name)
    requires IsConfigVip(r, name) && IsConfigVip(r', name) && r'.vips == r.vips[name := r'.vips[name]]
    ensures ApiSpecs(r') == ApiSpecs(r)
  {
  }

  lemma {:induction false} LoadKeeps(r: Reg, saved: map<Name, VipSpec>, names: seq<Name>, envs: map<Name, Env>)
    requires Sound(r) && r.pending == map[] && ApiSpecs(r) == map[]
    requires Distinct(names) && forall n :: n in names ==> n in saved && n in envs
    ensures var r' := LoadNames(r, saved, names, envs);
      && Sound(r') && ApiSpecs(r').Keys !! r'.pending.Keys
      && ToSave(r') == Loaded(saved, names, Overwrites(r, saved, names, envs))
      && r'.file == r.file && r'.hasFile == r.hasFile
      && (IsConfigVip(r', CONFIG_VIP) <==> IsConfigVip(r, CONFIG_VIP))
    ensures Overwrites(r, saved, names, envs) ==> CONFIG_VIP in names && IsConfigVip(r, CONFIG_VIP)
  {
    if |names| > 0 {
      var n := |names| - 1;
      var init, last := names[..n], names[n];
      assert names == init + [last];
      LoadKeeps(r, saved, init, envs);
      var before := LoadNames(r, saved, init, envs);
      assert last !in init;
      assert last !in ToSave(before);
      LoadOneWellFormed(before, last, saved[last], envs[last]);
      LoadOneKeeps(before, last, saved[last], envs[last]);
      var lost := IsConfigVip(before, last) && Put(before, last, saved[last], false, envs[last]).1.Ok?;
      assert lost ==> last == CONFIG_VIP && !Overwrites(r, saved, init, envs);
      assert Overwrites(r, saved, names, envs) <==> Overwrites(r, saved, init, envs) || lost;
      LoadedStep(saved, init, last, Overwrites(r, saved, init, envs), lost);
    }
  }

  /** Of the saved VIPs, those that do not run again are pending: the count leaves out exactly them. */
  lemma {:induction false} RestartCounts(r: Reg, saved: map<Name, VipSpec>, names: seq<Name>, envs: map<Name, Env>)
    requires r.pending == map[] && Distinct(names) && forall n :: n in names ==> n in saved && n in envs
    ensures var r' := LoadNames(r, saved, names, envs);
      && (forall n :: n in r'.pending ==> n in names)
      && Restarted(r, saved, names, envs) + |r'.pending| == |names|
  {
    if |names| > 0 {
      var n := |names| - 1;
      var init, last := names[..n], names[n];
      assert names == init + [last];
      RestartCounts(r, saved, init, envs);
      assert last !in init;
      PutFrame(LoadNames(r, saved, init, envs), last, saved[last], false, envs[last]);
    }
  }

  lemma {:induction false} LoadEntriesOk(r: Reg, saved: map<Name, VipSpec>, names: seq<Name>, envs: map<Name, Env>)
    requires WellFormed(r)
    requires forall n :: n in names ==> n in saved && n in envs && Agrees(envs[n])
    ensures WellFormed(LoadNames(r, saved, names, envs))
  {
    if |names| > 0 {
      var init, last := names[..|names| - 1], names[|names| - 1];
      LoadEntriesOk(r, saved, init, envs);
      LoadOneWellFormed(LoadNames(r, saved, init, envs), last, saved[last], envs[last]);
    }
  }

  lemma LoadedStep(saved: map<Name, VipSpec>, init: seq<Name>, last: Name, lostBefore: bool, lost: bool)
    requires last !in init && last in saved && forall n :: n in init ==> n in saved
    requires lostBefore ==> CONFIG_VIP in init
    requires lost ==> last == CONFIG_VIP && !lostBefore
    ensures Loaded(saved, init + [last], lostBefore || lost)
         == (if lost then Loaded(saved, init, lostBefore) else Loaded(saved, init, lostBefore)[last := saved[last]])
  {
  }

  lemma StartedWellFormed(r: Reg, config: Option<VipSpec>, env: Env)
    requires Started(r, config, env).1.Ok?
    ensures var r0 := Started(r, config, env).0;
      && WellFormed(r0) && r0.pending == map[] && ApiSpecs(r0) == map[]
      && r0.file == r.file && r0.hasFile == r.hasFile
      && (IsConfigVip(r0, CONFIG_VIP) <==> config.Some?)
  {
    var empty := Reg(map[], map[], r.hasFile, r.file, {}, 0);
    assert WellFormed(empty);
    if config.Some? {
      PutSound(empty, CONFIG_VIP, config.value, true, env);
      EntryMade(config.value, true, Check(config.value).value, 0);
      PutFrame(empty, CONFIG_VIP, config.value, true, env);
    }
  }

  /**
   After a restart the running API VIPs and the pending ones together are what
   was on disk, without a saved `default` that was put over the config file's
   VIP; nothing, if the file could not be read. The file is as it was.
   */
  lemma RestartRefines(r: Reg, a: Abstract, op: Op)
    requires op.RestartOp? && Stands(r, a) && CanDo(r, op)
    ensures Sound(Do(r, op)) && (Agree(op) ==> WellFormed(Do(r, op)))
    ensures Stands(Do(r, op), DoAbstract(a, op, Went(r, op)))
    ensures Overwrote(r, op) ==> CONFIG_VIP in a.disk
  {
    var r0 := Started(r, op.config, op.configEnv).0;
    StartedWellFormed(r, op.config, op.configEnv);
    if op.readOk {
      LoadKeeps(r0, a.disk, op.names, op.envs);
      LoadIs(r, a, op);
      LoadedAll(a.disk, op.names, Overwrote(r, op));
      if Agree(op) {
        LoadEntriesOk(r0, a.disk, op.names, op.envs);
      }
    }
  }

  /** A file that is not there holds nothing. */
  lemma LoadIs(r: Reg, a: Abstract, op: Op)
    requires op.RestartOp? && Stands(r, a) && CanDo(r, op) && op.readOk
    ensures Do(r, op) == LoadNames(Started(r, op.config, op.configEnv).0, a.disk, op.names, op.envs)
  {
    StartedFile(r, op.config, op.configEnv);
    if r.file == None {
      EnumeratesNothing(op.names);
    }
  }

  lemma EnumeratesNothing(names: seq<Name>)
    requires forall n :: n !in names
    ensures names == []
  {
    SomeName(names);
  }

  lemma SomeName(names: seq<Name>)
    ensures names != [] ==> exists n :: n in names
  {
    assert names != [] ==> names[0] in names;
  }

  lemma LoadedAll(saved: map<Name, VipSpec>, names: seq<Name>, lost: bool)
    requires Enumerates(names, saved) && (lost ==> CONFIG_VIP in names)
    ensures Loaded(saved, names, lost) == Reloaded(saved, true, lost)
  {
  }

  /** A restart loses nothing if and only if the file is read and no saved `default` overwrites, or nothing was saved. */
  lemma RestartKeepsExactlyWhen(r: Reg, a: Abstract, op: Op)
    requires op.RestartOp? && Stands(r, a) && CanDo(r, op)
    ensures Stands(Do(r, op), Abstract(a.disk, a.disk)) <==> (op.readOk && !Overwrote(r, op)) || a.disk == map[]
  {
    RestartRefines(r, a, op);
    if op.readOk && Overwrote(r, op) {
      assert CONFIG_VIP !in Reloaded(a.disk, true, true);
    }
  }

  /** The keys of a map can be listed, a chosen one first. */
  lemma ListKeys(m: map<Name, VipSpec>, first: Name) returns (names: seq<Name>)
    requires first in m
    ensures Enumerates(names, m) && names[0] == first
    decreases |m|
  {
    if k :| k in m && k != first {
      var rest := m - {k};
      assert |rest.Keys| < |m.Keys| by { assert rest.Keys == m.Keys - {k}; }
      var some := ListKeys(rest, first);
      names := some + [k];
    } else {
      names := [first];
    }
  }

  lemma {:induction false} OverwritesEarlier(r: Reg, saved: map<Name, VipSpec>, names: seq<Name>, envs: map<Name, Env>, k: nat)
    requires forall n :: n in names ==> n in saved && n in envs
    requires k <= |names| && Overwrites(r, saved, names[..k], envs)
    ensures Overwrites(r, saved, names, envs)
  {
    if k == |names| {
      assert names[..k] == names;
    } else {
      assert names[..|names| - 1][..k] == names[..k];
      OverwritesEarlier(r, saved, names[..|names| - 1], envs, k);
    }
  }

  /** No way the restart goes, after the file was read or not, loses a saved VIP. */
  ghost predicate RestartSafe(r: Reg, a: Abstract, config: Option<VipSpec>, readOk: bool) {
    forall op: Op :: op.RestartOp? && op.config == config && op.readOk == readOk && CanDo(r, op)
      ==> Stands(Do(r, op), Abstract(a.disk, a.disk))
  }

  /** No saved VIP can be put over the config file's. */
  predicate NoClash(config: Option<VipSpec>, disk: map<Name, VipSpec>) {
    config == None || CONFIG_VIP !in disk || Check(disk[CONFIG_VIP]).Err?
  }

  /**
   Exactly when a restart is safe whatever the world answers otherwise: the
   file is read, or nothing was saved; and there is no config VIP, or no saved
   VIP has its name, or that one's spec is invalid.
   */
  lemma RestartSafeExactlyWhen(r: Reg, a: Abstract, config: Option<VipSpec>, readOk: bool)
    requires Stands(r, a)
    requires config.Some? ==> Check(config.value).Ok?
    ensures RestartSafe(r, a, config, readOk) <==> (readOk || a.disk == map[]) && NoClash(config, a.disk)
  {
    if (readOk || a.disk == map[]) && NoClash(config, a.disk) {
      forall op: Op | op.RestartOp? && op.config == config && op.readOk == readOk && CanDo(r, op)
        ensures Stands(Do(r, op), Abstract(a.disk, a.disk))
      {
        RestartKeepsExactlyWhen(r, a, op);
        SafeRestart(r, a, op);
      }
    } else {
      var op := UnsafeRestart(r, a, config, readOk);
    }
  }

  lemma SafeRestart(r: Reg, a: Abstract, op: Op)
    requires Stands(r, a) && op.RestartOp? && CanDo(r, op) && NoClash(op.config, a.disk)
    ensures !Overwrote(r, op)
  {
    StartedWellFormed(r, op.config, op.configEnv);
    NoOverwrite(Started(r, op.config, op.configEnv).0, a.disk, op.names, op.envs);
  }

  /** A failed read loses everything saved, and a restart in which all works a valid saved `default`. */
  lemma UnsafeRestart(r: Reg, a: Abstract, config: Option<VipSpec>, readOk: bool) returns (op: Op)
    requires Stands(r, a) && (config.Some? ==> Check(config.value).Ok?)
    requires !((readOk || a.disk == map[]) && NoClash(config, a.disk))
    ensures op.RestartOp? && op.config == config && op.readOk == readOk && CanDo(r, op)
    ensures !Stands(Do(r, op), Abstract(a.disk, a.disk))
  {
    var yes := Env(true, true, true, true);
    var first :| first in a.disk && (readOk ==> first == CONFIG_VIP);
    var names := ListKeys(a.disk, first);
    op := RestartOp(config, yes, readOk, names, map n | n in a.disk :: yes);
    assert CanDo(r, op);
    RestartKeepsExactlyWhen(r, a, op);
    if readOk {
      LosesDefault(r, a, op);
    }
  }

  lemma LosesDefault(r: Reg, a: Abstract, op: Op)
    requires Stands(r, a) && op.RestartOp? && CanDo(r, op) && op.readOk && op.config.Some?
    requires |op.names| > 0 && op.names[0] == CONFIG_VIP && op.envs[CONFIG_VIP] == Env(true, true, true, true)
    requires CONFIG_VIP in a.disk && Check(a.disk[CONFIG_VIP]).Ok?
    ensures Overwrote(r, op)
  {
    var r0 := Started(r, op.config, op.configEnv).0;
    StartedWellFormed(r, op.config, op.configEnv);
    assert op.names[..1] == [CONFIG_VIP];
    OverwritesFirst(r0, a.disk, op.envs);
    OverwritesEarlier(r0, a.disk, op.names, op.envs, 1);
  }

  lemma OverwritesFirst(r: Reg, saved: map<Name, VipSpec>, envs: map<Name, Env>)
    requires CONFIG_VIP in saved && CONFIG_VIP in envs && envs[CONFIG_VIP] == Env(true, true, true, true)
    requires r.vips.Keys == {CONFIG_VIP} && IsConfigVip(r, CONFIG_VIP) && Check(saved[CONFIG_VIP]).Ok?
    ensures Overwrites(r, saved, [CONFIG_VIP], envs)
  {
    assert [CONFIG_VIP][..0] == [];
  }

  lemma {:induction false} NoOverwrite(r: Reg, saved: map<Name, VipSpec>, names: seq<Name>, envs: map<Name, Env>)
    requires Sound(r) && r.pending == map[] && ApiSpecs(r) == map[]
    requires Distinct(names) && forall n :: n in names ==> n in saved && n in envs
    requires !IsConfigVip(r, CONFIG_VIP) || CONFIG_VIP !in saved || Check(saved[CONFIG_VIP]).Err?
    ensures !Overwrites(r, saved, names, envs)
  {
    if |names| > 0 {
      var init, last := names[..|names| - 1], names[|names| - 1];
      NoOverwrite(r, saved, init, envs);
      LoadKeeps(r, saved, init, envs);
      assert last in names;
    }
  }

  // ----- a file that could not be read -------------------------------------------------------------

  /**
   After a failed read the registry has forgotten every saved VIP, and the
   file has not: the next change that is accepted and saved leaves the file
   with that VIP alone.
   */
  lemma FailedReadDropsTheRest(r: Reg, a: Abstract, op: Op, name: Name, s: VipSpec, env: Env)
    requires Stands(r, a) && op.RestartOp? && CanDo(r, op) && !op.readOk && r.hasFile
    requires Apply(Do(r, op), name, s, env).1.Ok?
    ensures OnDisk(Do(r, op)) == a.disk
    ensures OnDisk(Apply(Do(r, op), name, s, env).0) == map[name := s]
    ensures forall n :: n in a.disk && n != name ==> n !in OnDisk(Apply(Do(r, op), name, s, env).0)
  {
    RestartRefines(r, a, op);
    StartedFile(r, op.config, op.configEnv);
    ApplyRefines(Do(r, op), Abstract(map[], a.disk), name, s, env);
  }

  /** If no change is made before it, the next restart that reads the file brings them all back. */
  lemma RereadRestores(r: Reg, a: Abstract, failed: Op, again: Op)
    requires Stands(r, a) && failed.RestartOp? && CanDo(r, failed) && !failed.readOk
    requires again.RestartOp? && CanDo(Do(r, failed), again) && again.readOk && NoClash(again.config, a.disk)
    ensures Stands(Do(Do(r, failed), again), Abstract(a.disk, a.disk))
  {
    RestartRefines(r, a, failed);
    SafeRestart(Do(r, failed), Abstract(map[], a.disk), again);
    RestartKeepsExactlyWhen(Do(r, failed), Abstract(map[], a.disk), again);
  }

  // ----- every run -------------------------------------------------------------------------------

  /** Each operation can be done where it is done. */
  ghost predicate IsRun(r: Reg, ops: seq<Op>)
    decreases |ops|
  {
    |ops| == 0 || (CanDo(r, ops[0]) && IsRun(Do(r, ops[0]), ops[1..]))
  }

  ghost function Final(r: Reg, ops: seq<Op>): Reg
    requires IsRun(r, ops)
    decreases |ops|
  {
    if |ops| == 0 then r else Final(Do(r, ops[0]), ops[1..])
  }

  /** The simple view of the same run. */
  ghost function FinalAbstract(r: Reg, a: Abstract, ops: seq<Op>): Abstract
    requires IsRun(r, ops)
    decreases |ops|
  {
    if |ops| == 0 then a else FinalAbstract(Do(r, ops[0]), DoAbstract(a, ops[0], Went(r, ops[0])), ops[1..])
  }

  lemma OpKeeps(r: Reg, a: Abstract, op: Op)
    requires Sound(r) && Stands(r, a) && CanDo(r, op)
    ensures Sound(Do(r, op)) && (EntriesOk(r.vips) && Agree(op) ==> WellFormed(Do(r, op)))
    ensures Stands(Do(r, op), DoAbstract(a, op, Went(r, op)))
  {
    match op {
      case ApplyOp(name, s, env) =>
        ApplyRefines(r, a, name, s, env);
        ApplyWellFormed(r, name, s, env);
      case RemoveOp(name, env) =>
        RemoveRefines(r, a, name, env);
        RemoveWellFormed(r, name, env);
      case RestartOp(_, _, _, _, _) =>
        RestartRefines(r, a, op);
    }
  }

  lemma ApplyWellFormed(r: Reg, name: Name, s: VipSpec, env: Env)
    requires Sound(r)
    ensures Sound(Apply(r, name, s, env).0)
    ensures EntriesOk(r.vips) && Agrees(env) ==> EntriesOk(Apply(r, name, s, env).0.vips)
  {
    if ValidName(name) && !IsConfigVip(r, name) {
      PutWellFormed(r, name, s, false, env);
    }
  }

  lemma RemoveWellFormed(r: Reg, name: Name, env: Env)
    requires Sound(r)
    ensures Sound(Remove(r, name, env).0)
    ensures EntriesOk(r.vips) ==> EntriesOk(Remove(r, name, env).0.vips)
  {
    if name in r.vips {
      RemovedSound(r, name);
    }
  }

  /** Stopping everything stops every VRRP loop there is, and leaves the file and what is pending. */
  lemma StopAllStops(r: Reg)
    requires Sound(r)
    ensures WellFormed(StopAll(r)) && StopAll(r).running == {}
    ensures StopAll(r).file == r.file && StopAll(r).pending == r.pending
  {
  }

  /**
   The refinement. In every run of changes, removals and restarts, whatever
   binds, builds, is read or is written, the running API VIPs and the pending
   ones are disjoint and together are the specs last accepted since a restart
   and those it reloaded, the file is those as of the last successful save, no
   two VIPs share a listener, and the VRRP loops running are exactly the
   entries' own. While no health client builds for a test and fails for the
   change, every entry is what its spec determines.
   */
  lemma {:induction false} RunRefines(r: Reg, a: Abstract, ops: seq<Op>)
    requires Sound(r) && Stands(r, a) && IsRun(r, ops)
    ensures Stands(Final(r, ops), FinalAbstract(r, a, ops)) && Sound(Final(r, ops))
    ensures EntriesOk(r.vips) && (forall op :: op in ops ==> Agree(op)) ==> WellFormed(Final(r, ops))
    decreases |ops|
  {
    if |ops| > 0 {
      OpKeeps(r, a, ops[0]);
      RunRefines(Do(r, ops[0]), DoAbstract(a, ops[0], Went(r, ops[0])), ops[1..]);
    }
  }

  /** Every restart of the run reads the file, with no saved VIP to put over the config file's. */
  ghost predicate RestartsRead(r: Reg, ops: seq<Op>)
    requires IsRun(r, ops)
    decreases |ops|
  {
    |ops| == 0 ||
    (&& (ops[0].RestartOp? ==> ops[0].readOk && NoClash(ops[0].config, OnDisk(r)))
     && RestartsRead(Do(r, ops[0]), ops[1..]))
  }

  predicate Changes(op: Op, name: Name) {
    !op.RestartOp? && op.name == name
  }

  lemma StepLeavesSaved(r: Reg, a: Abstract, op: Op, name: Name, s: VipSpec)
    requires Stands(r, a) && CanDo(r, op) && !Changes(op, name)
    requires op.RestartOp? ==> op.readOk && NoClash(op.config, OnDisk(r))
    requires name in a.want && a.want[name] == s && name in a.disk && a.disk[name] == s
    ensures var a' := DoAbstract(a, op, Went(r, op));
      name in a'.want && a'.want[name] == s && name in a'.disk && a'.disk[name] == s
  {
    if op.RestartOp? {
      SafeRestart(r, a, op);
    }
  }

  /**
   Every saved VIP survives: one that is saved and that no operation names is
   wanted and saved as it was after every run whose restarts read the file.
   */
  lemma {:induction false} EverySavedVipSurvives(r: Reg, a: Abstract, ops: seq<Op>, name: Name, s: VipSpec)
    requires Sound(r) && Stands(r, a) && IsRun(r, ops) && RestartsRead(r, ops)
    requires name in a.want && a.want[name] == s && name in a.disk && a.disk[name] == s
    requires forall op :: op in ops ==> !Changes(op, name)
    ensures name in ToSave(Final(r, ops)) && ToSave(Final(r, ops))[name] == s
    ensures name in OnDisk(Final(r, ops)) && OnDisk(Final(r, ops))[name] == s
    decreases |ops|
  {
    if |ops| > 0 {
      var op := ops[0];
      OpKeeps(r, a, op);
      StepLeavesSaved(r, a, op, name, s);
      assert op in ops && forall o :: o in ops[1..] ==> o in ops;
      EverySavedVipSurvives(Do(r, op), DoAbstract(a, op, Went(r, op)), ops[1..], name, s);
    }
  }

  /** A process on a clean disk is such a registry. */
  lemma CleanStart(hasFile: bool)
    ensures var r := Reg(map[], map[], hasFile, None, {}, 0);
      WellFormed(r) && Stands(r, Abstract(map[], map[]))
  {
  }
}

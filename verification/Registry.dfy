/**
 The VIP registry of src/vips.rs: the running VIPs, the saved ones that did
 not start, and the state file.

 `Reg` is the registry's value and the functions on it are its specification;
 class `Registry` is the source's object. What the world answers (whether a
 listener binds, a health client builds, the file is written) is an `Env`.
 */
module Registry {
  import opened Bytes
  import opened Pool

  datatype Result<+T> = Ok(value: T) | Err(error: ApplyError)
  datatype ApplyError = Invalid | Conflict | NotFound | NotSaved

  type Name = string

  const CONFIG_VIP: Name := "default"

  /** An address as text, with what it parses to. */
  datatype Text = Parses(ip: Ip) | NotAnIp(text: string)

  datatype BackendSpec = BackendSpec(address: Text, port: u16)

  /** `client` stands for the mode and the CA file, which only the health client reads. */
  datatype HealthSpec = HealthSpec(path: string, intervalSecs: nat, timeoutSecs: nat, expectStatus: seq<u16>, client: nat)

  datatype VrrpSpec = VrrpSpec(iface: string, vrid: byte, priority: byte, preempt: bool, secs: nat)

  datatype VipSpec = VipSpec(address: Text, port: u16, bind: Option<Text>, backends: seq<BackendSpec>,
                             health: HealthSpec, vrrp: Option<VrrpSpec>)

  /** The validated form of a spec. */
  datatype Checked = Checked(listen: SocketAddr, backends: seq<SocketAddr>, vrrpVip: Option<Ipv4>)

  /** A started VRRP loop: which one, and what it was started with. */
  datatype Instance = Instance(id: nat, spec: VrrpSpec, vip: Ipv4)

  /** `members` is the pool's list, `checker` the spec its health loop probes by. */
  datatype Entry = Entry(spec: VipSpec, fromConfig: bool, listen: SocketAddr, members: seq<SocketAddr>,
                         checker: HealthSpec, vrrp: Option<Instance>)

  /**
   `running` are the VRRP loops not told to stop, `nextId` the next one's
   number; `file` is what the state file holds, `hasFile` whether one is
   configured.
   */
  datatype Reg = Reg(vips: map<Name, Entry>, pending: map<Name, VipSpec>, hasFile: bool,
                     file: Option<map<Name, VipSpec>>, running: set<nat>, nextId: nat)

  datatype Env = Env(bindOk: bool, healthOk: bool, setSpecOk: bool, saveOk: bool)

  // ----- validation -------------------------------------------------------------

  predicate NameChar(c: char) {
    'a' <= c <= 'z' || '0' <= c <= '9' || c == '-'
  }

  predicate ValidName(name: Name) {
    && 1 <= |name| <= 63
    && (forall c :: c in name ==> NameChar(c))
    && name[0] != '-' && name[|name| - 1] != '-'
  }

  /** The backends' addresses, if every one is good. */
  function CheckBackends(bs: seq<BackendSpec>): Option<seq<SocketAddr>> {
    if |bs| == 0 then Some([]) else
    var init, b := CheckBackends(bs[..|bs| - 1]), bs[|bs| - 1];
    if init.Some? && b.address.Parses? && b.port != 0
    then Some(init.value + [SocketAddr(b.address.ip, b.port)])
    else None
  }

  predicate HealthWellFormed(h: HealthSpec) {
    && |h.path| > 0 && h.path[0] == '/'
    && h.intervalSecs != 0 && h.timeoutSecs != 0
    && |h.expectStatus| > 0
  }

  predicate VrrpWellFormed(v: VrrpSpec, ip: Ip) {
    ip.V4? && |v.iface| > 0 && v.vrid != 0 && v.priority != 0 && 1 <= v.secs <= 40
  }

  function Check(s: VipSpec): Result<Checked> {
    if !s.address.Parses? || s.port == 0 then Err(Invalid)
    else if s.bind.Some? && !s.bind.value.Parses? then Err(Invalid)
    else if CheckBackends(s.backends) == None || !HealthWellFormed(s.health) then Err(Invalid)
    else if s.vrrp.Some? && !VrrpWellFormed(s.vrrp.value, s.address.ip) then Err(Invalid)
    else
      var ip := if s.bind.Some? then s.bind.value.ip else s.address.ip;
      Ok(Checked(SocketAddr(ip, s.port), CheckBackends(s.backends).value,
                 if s.vrrp.Some? then Some(s.address.ip.v4) else None))
  }

  /** Every backend is good, told one by one. */
  predicate BackendsGood(bs: seq<BackendSpec>) {
    forall k :: 0 <= k < |bs| ==> bs[k].address.Parses? && 1 <= bs[k].port
  }

  lemma {:induction false} BackendsChecked(bs: seq<BackendSpec>)
    ensures CheckBackends(bs).Some? <==> BackendsGood(bs)
    ensures CheckBackends(bs).Some? ==>
      var addrs := CheckBackends(bs).value;
      && |addrs| == |bs|
      && forall k :: 0 <= k < |bs| ==> addrs[k].ip == bs[k].address.ip && addrs[k].port == bs[k].port
  {
    if |bs| > 0 {
      var init := bs[..|bs| - 1];
      BackendsChecked(init);
      assert forall k :: 0 <= k < |init| ==> init[k] == bs[k];
    }
  }

  /** What a spec must say, field for field. */
  predicate SpecGood(s: VipSpec) {
    && s.address.Parses? && 1 <= s.port <= 65535
    && (s.bind.Some? ==> s.bind.value.Parses?)
    && BackendsGood(s.backends)
    && s.health.path != "" && s.health.path[0] == '/'
    && s.health.intervalSecs >= 1 && s.health.timeoutSecs >= 1 && s.health.expectStatus != []
    && (s.vrrp.Some? ==>
          && s.address.ip.V4? && s.vrrp.value.iface != ""
          && 1 <= s.vrrp.value.vrid <= 255 && 1 <= s.vrrp.value.priority <= 255 && 1 <= s.vrrp.value.secs <= 40)
  }

  /** Where a spec listens: at the bind address if it has one, or else at the VIP, on the spec's port. */
  predicate ListensAsSaid(s: VipSpec, listen: SocketAddr) {
    && listen.port == s.port
    && (s.bind.Some? && s.bind.value.Parses? ==> listen.ip == s.bind.value.ip)
    && (s.bind == None && s.address.Parses? ==> listen.ip == s.address.ip)
  }

  /** A spec is accepted exactly if each of its fields is good, and then it is taken at its word. */
  lemma CheckedExactlyWhen(s: VipSpec)
    ensures Check(s).Ok? <==> SpecGood(s)
    ensures Check(s).Err? ==> Check(s).error == Invalid
    ensures Check(s).Ok? ==>
      var c := Check(s).value;
      && ListensAsSaid(s, c.listen)
      && |c.backends| == |s.backends|
      && (forall k :: 0 <= k < |s.backends| ==>
            c.backends[k].ip == s.backends[k].address.ip && c.backends[k].port == s.backends[k].port)
      && (c.vrrpVip.Some? <==> s.vrrp.Some?)
      && (c.vrrpVip.Some? ==> V4(c.vrrpVip.value) == s.address.ip)
  {
    BackendsChecked(s.backends);
  }

  /** A VIP's name: 1 to 63 of a-z, 0-9 and the hyphen, the hyphen neither first nor last. */
  lemma NameExactlyWhen(name: Name)
    ensures ValidName(name) <==>
      && name != "" && |name| < 64
      && (forall k :: 0 <= k < |name| ==>
            97 <= name[k] as int <= 122 || 48 <= name[k] as int <= 57 || name[k] as int == 45)
      && name[0] as int != 45 && name[|name| - 1] as int != 45
  {
    EachChar(name);
  }

  lemma EachChar(name: Name)
    ensures (forall c :: c in name ==> NameChar(c)) <==> forall k :: 0 <= k < |name| ==> NameChar(name[k])
  {
    assert forall k :: 0 <= k < |name| ==> name[k] in name;
  }

  method CheckVip(s: VipSpec) returns (r: Result<Checked>)
    ensures r == Check(s)
  {
    if !s.address.Parses? {
      return Err(Invalid);
    }
    var vip := s.address.ip;
    if s.port == 0 {
      return Err(Invalid);
    }
    var bindIp := vip;
    if s.bind.Some? {
      if !s.bind.value.Parses? {
        return Err(Invalid);
      }
      bindIp := s.bind.value.ip;
    }
    var backends: seq<SocketAddr> := [];
    for i := 0 to |s.backends|
      invariant CheckBackends(s.backends[..i]) == Some(backends)
    {
      var b := s.backends[i];
      assert s.backends[..i + 1][..i] == s.backends[..i];
      if !b.address.Parses? || b.port == 0 {
        BadBackend(s.backends, i);
        return Err(Invalid);
      }
      backends := backends + [SocketAddr(b.address.ip, b.port)];
    }
    assert s.backends[..|s.backends|] == s.backends;
    if !HealthWellFormed(s.health) {
      return Err(Invalid);
    }
    match s.vrrp {
      case None => return Ok(Checked(SocketAddr(bindIp, s.port), backends, None));
      case Some(v) =>
        if !VrrpWellFormed(v, vip) {
          return Err(Invalid);
        }
        return Ok(Checked(SocketAddr(bindIp, s.port), backends, Some(vip.v4)));
    }
  }

  lemma {:induction false} BadBackend(bs: seq<BackendSpec>, i: nat)
    requires i < |bs| && (!bs[i].address.Parses? || bs[i].port == 0)
    ensures CheckBackends(bs) == None
  {
    if i < |bs| - 1 {
      BadBackend(bs[..|bs| - 1], i);
    }
  }

  // ----- the operations -----------------------------------------------------------

  predicate ListenTaken(vips: map<Name, Entry>, name: Name, listen: SocketAddr) {
    exists other :: other in vips && other != name && vips[other].listen == listen
  }

  function StartVrrp(id: nat, s: VipSpec, vip: Option<Ipv4>): Option<Instance> {
    if s.vrrp.Some? && vip.Some? then Some(Instance(id, s.vrrp.value, vip.value)) else None
  }

  function Ids(v: Option<Instance>): set<nat> {
    if v.Some? then {v.value.id} else {}
  }

  /** The VRRP loop is kept while its settings and address are. */
  predicate KeepsVrrp(e: Entry, s: VipSpec) {
    s.vrrp == e.spec.vrrp && s.address == e.spec.address
  }

  /** The VRRP loop after the change: the same one, or a new one in its place. */
  function VrrpAfter(r: Reg, e: Entry, s: VipSpec, c: Checked): Option<Instance> {
    if KeepsVrrp(e, s) then e.vrrp else StartVrrp(r.nextId, s, c.vrrpVip)
  }

  function RunningAfter(r: Reg, e: Entry, s: VipSpec, c: Checked): set<nat> {
    if KeepsVrrp(e, s) then r.running else r.running - Ids(e.vrrp) + Ids(VrrpAfter(r, e, s, c))
  }

  function NextIdAfter(r: Reg, e: Entry, s: VipSpec, c: Checked): nat {
    if KeepsVrrp(e, s) then r.nextId else r.nextId + |Ids(VrrpAfter(r, e, s, c))|
  }

  /** A running VIP replaced, once nothing more can fail. */
  function Replaced(r: Reg, name: Name, e: Entry, s: VipSpec, c: Checked): Reg {
    var e' := Entry(s, e.fromConfig, c.listen, Dedup(c.backends), s.health, VrrpAfter(r, e, s, c));
    r.(vips := r.vips[name := e'], running := RunningAfter(r, e, s, c), nextId := NextIdAfter(r, e, s, c))
  }

  /** A VIP created. */
  function Created(r: Reg, name: Name, s: VipSpec, fromConfig: bool, c: Checked): Reg {
    var v := StartVrrp(r.nextId, s, c.vrrpVip);
    r.(vips := r.vips[name := Entry(s, fromConfig, c.listen, Dedup(c.backends), s.health, v)],
       running := r.running + Ids(v), nextId := r.nextId + |Ids(v)|)
  }

  /** A running VIP changed: its listener moves, and its members change, before the health spec is set. */
  function Change(r: Reg, name: Name, s: VipSpec, c: Checked, env: Env): (Reg, Result<bool>)
    requires name in r.vips
  {
    var e := r.vips[name];
    if !env.healthOk then (r, Err(Invalid))
    else if c.listen != e.listen && !env.bindOk then (r, Err(Conflict))
    else if !env.setSpecOk then (r.(vips := r.vips[name := Moved(e, c)]), Err(Invalid))
    else (Replaced(r, name, e, s, c), Ok(false))
  }

  function Moved(e: Entry, c: Checked): Entry {
    e.(listen := c.listen, members := Dedup(c.backends))
  }

  /** Moving the listener first makes no difference to what a change comes to. */
  lemma AfterMove(r: Reg, name: Name, s: VipSpec, c: Checked)
    requires name in r.vips
    ensures var e, e' := r.vips[name], Moved(r.vips[name], c).(checker := s.health);
      var r1 := r.(vips := r.vips[name := Moved(e, c)]);
      Replaced(r, name, e, s, c)
      == r.(vips := r1.vips[name := e'.(vrrp := VrrpAfter(r1, e', s, c), spec := s)],
            running := RunningAfter(r1, e', s, c), nextId := NextIdAfter(r1, e', s, c))
  {
    var e' := Replaced(r, name, r.vips[name], s, c).vips[name];
    assert r.vips[name := Moved(r.vips[name], c)][name := e'] == r.vips[name := e'];
  }

  /** Ok(true) when the VIP was created. */
  function Put(r: Reg, name: Name, s: VipSpec, fromConfig: bool, env: Env): (Reg, Result<bool>) {
    match Check(s)
    case Err(e) => (r, Err(e))
    case Ok(c) =>
      if ListenTaken(r.vips, name, c.listen) then (r, Err(Conflict))
      else if name in r.vips then Change(r, name, s, c, env)
      else if !env.healthOk then (r, Err(Invalid))
      else if !env.bindOk then (r, Err(Conflict))
      else (Created(r, name, s, fromConfig, c), Ok(true))
  }

  /** The running VIPs that are not the config file's. */
  function ApiSpecs(r: Reg): (m: map<Name, VipSpec>) {
    map name | name in r.vips && !r.vips[name].fromConfig :: r.vips[name].spec
  }

  /** What is to be saved: the saved VIPs that did not start, and the running ones. */
  function ToSave(r: Reg): map<Name, VipSpec> {
    r.pending + ApiSpecs(r)
  }

  function Save(r: Reg, ok: bool): (Reg, Result<()>) {
    if !r.hasFile then (r, Ok(()))
    else if ok then (r.(file := Some(ToSave(r))), Ok(()))
    else (r, Err(NotSaved))
  }

  predicate IsConfigVip(r: Reg, name: Name) {
    name in r.vips && r.vips[name].fromConfig
  }

  function Apply(r: Reg, name: Name, s: VipSpec, env: Env): (Reg, Result<bool>) {
    if !ValidName(name) then (r, Err(Invalid))
    else if IsConfigVip(r, name) then (r, Err(Conflict))
    else
      var (r1, put) := Put(r, name, s, false, env);
      if put.Err? then (r1, put) else
      var (r2, saved) := Save(r1.(pending := r1.pending - {name}), env.saveOk);
      (r2, if saved.Err? then Err(saved.error) else put)
  }

  function Remove(r: Reg, name: Name, env: Env): (Reg, Result<()>) {
    if name !in r.vips then
      if name !in r.pending then (r, Err(NotFound)) else Save(r.(pending := r.pending - {name}), env.saveOk)
    else if r.vips[name].fromConfig then (r, Err(Conflict))
    else Save(r.(vips := r.vips - {name}, running := r.running - Ids(r.vips[name].vrrp)), env.saveOk)
  }

  function AllIds(vips: map<Name, Entry>): set<nat> {
    set name | name in vips && vips[name].vrrp.Some? :: vips[name].vrrp.value.id
  }

  function StopAll(r: Reg): Reg {
    r.(vips := map[], running := r.running - AllIds(r.vips))
  }

  /** Saved VIPs put one after the other, in the order `names`; each that fails stays pending. */
  function LoadNames(r: Reg, saved: map<Name, VipSpec>, names: seq<Name>, envs: map<Name, Env>): Reg
    requires forall n :: n in names ==> n in saved && n in envs
  {
    if |names| == 0 then r else
    var before, last := LoadNames(r, saved, names[..|names| - 1], envs), names[|names| - 1];
    var (r', put) := Put(before, last, saved[last], false, envs[last]);
    if put.Ok? then r' else r'.(pending := r'.pending[last := saved[last]])
  }

  /** How many of them run. */
  function Restarted(r: Reg, saved: map<Name, VipSpec>, names: seq<Name>, envs: map<Name, Env>): nat
    requires forall n :: n in names ==> n in saved && n in envs
  {
    if |names| == 0 then 0 else
    var init, last := names[..|names| - 1], names[|names| - 1];
    Restarted(r, saved, init, envs)
    + if Put(LoadNames(r, saved, init, envs), last, saved[last], false, envs[last]).1.Ok? then 1 else 0
  }

  /** What is loaded: nothing from a file that is not there, or cannot be read. */
  function Load(r: Reg, readOk: bool, names: seq<Name>, envs: map<Name, Env>): Reg
    requires r.file.Some? ==> forall n :: n in names ==> n in r.file.value && n in envs
  {
    if r.hasFile && readOk && r.file.Some? then LoadNames(r, r.file.value, names, envs) else r
  }

  /** `names` lists the keys of `m`, each once, in some order. */
  ghost predicate Enumerates<V>(names: seq<Name>, m: map<Name, V>) {
    Distinct(names) && forall n :: n in names <==> n in m
  }

  class Registry {
    var vips: map<Name, Entry>
    var pending: map<Name, VipSpec>
    const hasFile: bool
    var file: Option<map<Name, VipSpec>>
    var running: set<nat>
    var nextId: nat

    ghost function Value(): Reg
      reads this
    {
      Reg(vips, pending, hasFile, file, running, nextId)
    }

    /** A process that finds `file` on disk. */
    constructor (hasFile: bool, file: Option<map<Name, VipSpec>>)
      ensures Value() == Reg(map[], map[], hasFile, file, {}, 0)
    {
      this.hasFile := hasFile;
      vips, pending, running, nextId := map[], map[], {}, 0;
      this.file := file;
    }

    method PutVip(name: Name, s: VipSpec, fromConfig: bool, env: Env) returns (r: Result<bool>)
      modifies this
      ensures (Value(), r) == Put(old(Value()), name, s, fromConfig, env)
    {
      var checked := CheckVip(s);
      if checked.Err? {
        return Err(checked.error);
      }
      var c := checked.value;
      if exists other | other in vips :: other != name && vips[other].listen == c.listen {
        return Err(Conflict);
      }
      if name in vips {
        r := ChangeVip(name, s, c, env);
        return;
      }
      if !env.healthOk {
        return Err(Invalid);
      }
      if !env.bindOk {
        return Err(Conflict);
      }
      var v := StartLoop(s, c.vrrpVip);
      vips := vips[name := Entry(s, fromConfig, c.listen, Dedup(c.backends), s.health, v)];
      return Ok(true);
    }

    method ChangeVip(name: Name, s: VipSpec, c: Checked, env: Env) returns (r: Result<bool>)
      requires name in vips
      modifies this
      ensures (Value(), r) == Change(old(Value()), name, s, c, env)
    {
      if !env.healthOk {
        return Err(Invalid);
      }
      var moved := MoveVip(name, c, env.bindOk);
      if !moved {
        return Err(Conflict);
      }
      if !env.setSpecOk {
        return Err(Invalid);
      }
      var e := vips[name].(checker := s.health);
      AfterMove(old(Value()), name, s, c);
      var v := SwapLoop(e, s, c);
      vips := vips[name := e.(vrrp := v, spec := s)];
      return Ok(false);
    }

    /** The listener moves, if it has to and can, and then the members change. */
    method MoveVip(name: Name, c: Checked, bindOk: bool) returns (moved: bool)
      requires name in vips
      modifies this`vips
      ensures moved <==> c.listen == old(vips)[name].listen || bindOk
      ensures vips == if moved then old(vips)[name := Moved(old(vips)[name], c)] else old(vips)
    {
      var e := vips[name];
      if c.listen != e.listen {
        if !bindOk {
          return false;
        }
        e := e.(listen := c.listen);
      }
      vips := vips[name := e.(members := Dedup(c.backends))];
      return true;
    }

    method SwapLoop(e: Entry, s: VipSpec, c: Checked) returns (v: Option<Instance>)
      modifies this`running, this`nextId
      ensures v == VrrpAfter(old(Value()), e, s, c)
      ensures running == RunningAfter(old(Value()), e, s, c) && nextId == NextIdAfter(old(Value()), e, s, c)
    {
      v := e.vrrp;
      if s.vrrp != e.spec.vrrp || s.address != e.spec.address {
        running := running - Ids(e.vrrp);
        v := StartLoop(s, c.vrrpVip);
      }
    }

    method StartLoop(s: VipSpec, vip: Option<Ipv4>) returns (v: Option<Instance>)
      modifies this`running, this`nextId
      ensures v == StartVrrp(old(nextId), s, vip)
      ensures running == old(running) + Ids(v) && nextId == old(nextId) + |Ids(v)|
    {
      if s.vrrp == None || vip == None {
        return None;
      }
      v := Some(Instance(nextId, s.vrrp.value, vip.value));
      running := running + {nextId};
      nextId := nextId + 1;
    }

    method SaveState(ok: bool) returns (r: Result<()>)
      modifies this`file
      ensures (Value(), r) == Save(old(Value()), ok)
    {
      if !hasFile {
        return Ok(());
      }
      var all := pending;
      all := all + map name | name in vips && !vips[name].fromConfig :: vips[name].spec;
      if !ok {
        return Err(NotSaved);
      }
      file := Some(all);
      return Ok(());
    }

    method ApplyVip(name: Name, s: VipSpec, env: Env) returns (r: Result<bool>)
      modifies this
      ensures (Value(), r) == Apply(old(Value()), name, s, env)
    {
      if !ValidName(name) {
        return Err(Invalid);
      }
      if name in vips && vips[name].fromConfig {
        return Err(Conflict);
      }
      var put := PutVip(name, s, false, env);
      if put.Err? {
        return put;
      }
      pending := pending - {name};
      var saved := SaveState(env.saveOk);
      return if saved.Err? then Err(saved.error) else put;
    }

    method RemoveVip(name: Name, env: Env) returns (r: Result<()>)
      modifies this
      ensures (Value(), r) == Remove(old(Value()), name, env)
    {
      if name !in vips {
        if name !in pending {
          return Err(NotFound);
        }
        pending := pending - {name};
      } else if vips[name].fromConfig {
        return Err(Conflict);
      } else {
        running := running - Ids(vips[name].vrrp);
        vips := vips - {name};
      }
      r := SaveState(env.saveOk);
    }

    method StopEverything()
      modifies this
      ensures Value() == StopAll(old(Value()))
    {
      running := running - AllIds(vips);
      vips := map[];
    }

    /**
     `readOk` says whether the file can be read and parsed, or is not there;
     `names` is the order in which its VIPs are read. The result is how many
     of them run again, or that the read failed.
     */
    method LoadState(readOk: bool, names: seq<Name>, envs: map<Name, Env>) returns (n: Option<nat>)
      requires file.Some? ==> forall name :: name in names ==> name in file.value && name in envs
      modifies this
      ensures Value() == Load(old(Value()), readOk, names, envs)
      ensures n == None <==> hasFile && !readOk
      ensures n.Some? ==> n.value == if hasFile && old(file).Some? then Restarted(old(Value()), old(file).value, names, envs) else 0
    {
      if !hasFile {
        return Some(0);
      }
      if !readOk {
        return None;
      }
      if file == None {
        return Some(0);
      }
      var saved := file.value;
      var count := 0;
      for i := 0 to |names|
        invariant Value() == LoadNames(old(Value()), saved, names[..i], envs)
        invariant count == Restarted(old(Value()), saved, names[..i], envs)
      {
        var name := names[i];
        assert names[..i + 1][..i] == names[..i];
        var put := PutVip(name, saved[name], false, envs[name]);
        if put.Err? {
          pending := pending[name := saved[name]];
        } else {
          count := count + 1;
        }
      }
      assert names[..|names|] == names;
      return Some(count);
    }
  }
}

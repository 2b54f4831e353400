/** The key-value store relayer: one connection's pending hashes, what is answered from memory, what is handed to
    send. */
module KvStore {
  import opened Words
  import opened HmsetWire

  //---- hashes ------------------------------------------------------------------------------------------------------

  function Pairs(items: seq<Bytes>): (fs: seq<Field>)
    requires |items| % 2 == 0
    ensures |fs| == |items| / 2
  {
    if items == [] then [] else [Field(items[0], items[1], [])] + Pairs(items[2..])
  }

  /** HGETALL's answer: the last value wins. */
  function AsMap(fs: seq<Field>): (m: map<Bytes, Bytes>) {
    if fs == [] then map[] else AsMap(fs[..|fs| - 1])[fs[|fs| - 1].name := fs[|fs| - 1].value]
  }

  /** HGET's answer: the first match. */
  function FirstValue(fs: seq<Field>, name: Bytes): Option<Bytes> {
    if fs == [] then None
    else if fs[0].name == name then Some(fs[0].value)
    else FirstValue(fs[1..], name)
  }

  /** What HGETALL reports for one name. */
  function LastValue(fs: seq<Field>, name: Bytes): Option<Bytes> {
    if name in AsMap(fs) then Some(AsMap(fs)[name]) else None
  }

  function CloneFields(fs: seq<Field>): (r: seq<Field>)
    ensures |r| == |fs|
    ensures forall i | 0 <= i < |fs| :: r[i] == Field(fs[i].name, fs[i].value, [])
  {
    seq(|fs|, i requires 0 <= i < |fs| => Field(fs[i].name, fs[i].value, []))
  }

  function Clone(h: Hmset): Hmset {
    Hmset(h.key, CloneFields(h.fields), h.sent, [])
  }

  lemma {:induction false} AsMapOfClone(fs: seq<Field>)
    ensures AsMap(CloneFields(fs)) == AsMap(fs)
  {
    if fs != [] {
      var n := |fs| - 1;
      AsMapOfClone(fs[..n]);
      assert CloneFields(fs)[..n] == CloneFields(fs[..n]);
    }
  }

  /** Cloning a hash without unknown bytes changes nothing, the Sent mark and the order of the fields included. */
  lemma CloneKeeps(h: Hmset)
    requires h.unknown == [] && forall i | 0 <= i < |h.fields| :: h.fields[i].unknown == []
    ensures Clone(h) == h
  {
    assert forall i | 0 <= i < |h.fields| :: CloneFields(h.fields)[i] == h.fields[i];
  }

  /** The stored form answers HGETALL exactly as memory does: for every hash, cloning, marshalling and
      unmarshalling succeeds and leaves the last-write-wins map unchanged. */
  lemma MemoryAgreesWithStore(h: Hmset)
    requires |HmsetBytes(Clone(h))| <= MAX_LEN
    ensures var stored := DecodeHmset(EMPTY_HMSET, 0, HmsetBytes(Clone(h)));
            stored == (Clone(h), Ok) && AsMap(stored.0.fields) == AsMap(h.fields)
  {
    EmptyIsUnknown();
    HmsetRoundTrip(Clone(h));
    AsMapOfClone(h.fields);
  }

  lemma {:induction false} AsMapKeys(fs: seq<Field>, name: Bytes)
    ensures name in AsMap(fs) <==> exists i | 0 <= i < |fs| :: fs[i].name == name
  {
    if fs != [] {
      var n := |fs| - 1;
      AsMapKeys(fs[..n], name);
      if i :| 0 <= i < |fs| && fs[i].name == name {
        if i < n { assert fs[..n][i].name == name; }
      }
      if i :| 0 <= i < n && fs[..n][i].name == name { assert fs[i].name == name; }
    }
  }

  lemma {:induction false} FirstValueKeys(fs: seq<Field>, name: Bytes)
    ensures FirstValue(fs, name).Some? <==> exists i | 0 <= i < |fs| :: fs[i].name == name
    ensures forall i | 0 <= i < |fs| && fs[i].name == name && (forall j | 0 <= j < i :: fs[j].name != name) ::
              FirstValue(fs, name) == Some(fs[i].value)
  {
    if fs != [] {
      FirstValueKeys(fs[1..], name);
      assert forall i | 1 <= i < |fs| :: fs[1..][i - 1] == fs[i];
      if fs[0].name != name {
        forall i | 0 <= i < |fs| && fs[i].name == name && (forall j | 0 <= j < i :: fs[j].name != name)
          ensures FirstValue(fs, name) == Some(fs[i].value)
        {
          assert fs[1..][i - 1].name == name;
          assert forall j | 0 <= j < i - 1 :: fs[1..][j] == fs[j + 1];
        }
      }
    }
  }

  ghost predicate DistinctNames(fs: seq<Field>) {
    forall i, j | 0 <= i < j < |fs| :: fs[i].name != fs[j].name
  }

  lemma {:induction false} LastValueAt(fs: seq<Field>, k: nat)
    requires k < |fs| && forall j | k < j < |fs| :: fs[j].name != fs[k].name
    ensures LastValue(fs, fs[k].name) == Some(fs[k].value)
  {
    var n := |fs| - 1;
    if k < n {
      assert forall j | k < j < n :: fs[..n][j].name != fs[..n][k].name;
      LastValueAt(fs[..n], k);
    }
  }

  /** HGET and HGETALL agree on every name when names are distinct. */
  lemma HGetAgrees(fs: seq<Field>, name: Bytes)
    requires DistinctNames(fs)
    ensures FirstValue(fs, name) == LastValue(fs, name)
  {
    AsMapKeys(fs, name);
    FirstValueKeys(fs, name);
    if i :| 0 <= i < |fs| && fs[i].name == name {
      LastValueAt(fs, i);
    }
  }

  /** With a repeated name, HGET answers the first value set and HGETALL the last: they agree exactly when those two
      do. */
  lemma HGetAgreesExactly(fs: seq<Field>, i: nat, k: nat)
    requires i <= k < |fs| && fs[i].name == fs[k].name
    requires forall j | 0 <= j < i :: fs[j].name != fs[i].name
    requires forall j | k < j < |fs| :: fs[j].name != fs[k].name
    ensures FirstValue(fs, fs[i].name) == LastValue(fs, fs[i].name) <==> fs[i].value == fs[k].value
  {
    FirstValueKeys(fs, fs[i].name);
    LastValueAt(fs, k);
  }

  //---- one connection ----------------------------------------------------------------------------------------------

  /** A command with its arguments after the name, as Str and Bytes return them. */
  datatype Command =
    | HMSET(args: seq<Bytes>)
    | EXPIRE(args: seq<Bytes>)
    | HGETALL(args: seq<Bytes>)
    | HGET(args: seq<Bytes>)

  datatype Reply = Fine | KO | BadCommand | All(m: map<Bytes, Bytes>) | One(value: Bytes) | FromStore(key: Bytes)

  datatype State = State(pending: map<Bytes, Hmset>, handed: set<(Bytes, Hmset)>)

  predicate ValidHmset(args: seq<Bytes>) {
    |args| >= 3 && |args| % 2 == 1
  }

  function PendingOr(s: State, key: Bytes): Hmset {
    if key in s.pending then s.pending[key] else EMPTY_HMSET
  }

  function Apply(s: State, c: Command): (r: (State, Reply)) {
    match c
    case HMSET(args) =>
      if !ValidHmset(args) then (s, KO)
      else
        var h := PendingOr(s, args[0]);
        (s.(pending := s.pending[args[0] := h.(fields := h.fields + Pairs(args[1..]))]), Fine)
    case EXPIRE(args) =>
      if |args| != 2 then (s, KO)
      else if args[0] !in s.pending || args[0] == [] then (s, BadCommand)
      else
        var h := s.pending[args[0]].(sent := true);
        (State(s.pending[args[0] := h], s.handed + {(args[0], Clone(h))}), Fine)
    case HGETALL(args) =>
      if |args| != 1 then (s, KO)
      else if args[0] in s.pending then (s, All(AsMap(s.pending[args[0]].fields)))
      else (s, FromStore(args[0]))
    case HGET(args) =>
      if |args| != 2 then (s, KO)
      else
        var v := FirstValue(PendingOr(s, args[0]).fields, args[1]);
        (s, if v.Some? then One(v.value) else FromStore(args[0]))
  }

  /** The deferred flush: whatever was never sent is sent now. */
  function Close(s: State): set<(Bytes, Hmset)> {
    s.handed + set k | k in s.pending && !s.pending[k].sent && s.pending[k].fields != [] :: (k, s.pending[k])
  }

  function Run(cs: seq<Command>): State {
    if cs == [] then State(map[], {}) else Apply(Run(cs[..|cs| - 1]), cs[|cs| - 1]).0
  }

  //---- the history, read off the commands alone --------------------------------------------------------------------

  predicate Writes(c: Command, key: Bytes) {
    c.HMSET? && ValidHmset(c.args) && c.args[0] == key
  }

  /** All field-value pairs set on key, in order. */
  function Written(cs: seq<Command>, key: Bytes): (fs: seq<Field>) {
    if cs == [] then []
    else
      var c := cs[|cs| - 1];
      Written(cs[..|cs| - 1], key) + if Writes(c, key) then Pairs(c.args[1..]) else []
  }

  /** An EXPIRE of key was accepted: it came after the first write of key. */
  predicate Expired(cs: seq<Command>, key: Bytes) {
    cs != [] &&
    var c := cs[|cs| - 1];
    Expired(cs[..|cs| - 1], key) || (c.EXPIRE? && |c.args| == 2 && c.args[0] == key && key != []
        && Written(cs, key) != [])
  }

  /** The last write of key is after its last EXPIRE. */
  predicate WrittenSince(cs: seq<Command>, key: Bytes) {
    cs != [] &&
    var c := cs[|cs| - 1];
    Writes(c, key) || (WrittenSince(cs[..|cs| - 1], key)
        && !(c.EXPIRE? && |c.args| == 2 && c.args[0] == key && key != []))
  }

  ghost predicate Tracks(cs: seq<Command>, s: State, key: Bytes) {
    && (key in s.pending <==> Written(cs, key) != [])
    && PendingOr(s, key).fields == Written(cs, key)
    && PendingOr(s, key).unknown == []
    && (PendingOr(s, key).sent <==> Expired(cs, key))
    && (Expired(cs, key) && !WrittenSince(cs, key) ==> (key, Clone(s.pending[key])) in s.handed)
    && (Expired(cs, key) ==> exists h :: (key, h) in s.handed)
    && (forall h | (key, h) in s.handed :: Expired(cs, key) && |h.fields| <= |Written(cs, key)|)
    && (WrittenSince(cs, key) ==> forall h | (key, h) in s.handed :: |h.fields| < |Written(cs, key)|)
  }

  lemma {:induction false} RunTracks(cs: seq<Command>, key: Bytes)
    ensures Tracks(cs, Run(cs), key)
    decreases |cs|
  {
    if cs != [] {
      var init, c := cs[..|cs| - 1], cs[|cs| - 1];
      var s, s' := Run(init), Run(cs);
      RunTracks(init, key);
      if c.EXPIRE? && s' != s && c.args[0] == key {
        assert (key, Clone(s'.pending[key])) in s'.handed;
      }
      if Expired(init, key) {
        var h :| (key, h) in s.handed;
        assert (key, h) in s'.handed;
      }
    }
  }

  /** Every key set on a connection has been handed to send by the time it closes. */
  lemma EveryKeyHanded(cs: seq<Command>, key: Bytes)
    requires Written(cs, key) != []
    ensures exists h :: (key, h) in Close(Run(cs)) && h.fields != []
  {
    RunTracks(cs, key);
    var s := Run(cs);
    if Expired(cs, key) {
      ExpiredHanded(cs, key);
    } else {
      assert (key, s.pending[key]) in Close(s);
    }
  }

  lemma {:induction false} ExpiredHanded(cs: seq<Command>, key: Bytes)
    requires Expired(cs, key)
    ensures exists h :: (key, h) in Run(cs).handed && h.fields != []
    decreases |cs|
  {
    var init := cs[..|cs| - 1];
    RunTracks(init, key);
    if Expired(init, key) {
      ExpiredHanded(init, key);
      var h :| (key, h) in Run(init).handed && h.fields != [];
      assert (key, h) in Run(cs).handed;
    } else {
      var h := Run(cs).pending[key];
      assert (key, Clone(h)) in Run(cs).handed;
    }
  }

  /** The final contents of a key are handed over exactly when it was not written again after an accepted EXPIRE:
      the Sent flag, set by EXPIRE and never cleared, keeps later fields from the flush. */
  lemma FinalContentsHanded(cs: seq<Command>, key: Bytes)
    requires Written(cs, key) != []
    ensures (exists h :: (key, h) in Close(Run(cs)) && h.fields == Written(cs, key))
            <==> !(Expired(cs, key) && WrittenSince(cs, key))
  {
    RunTracks(cs, key);
    var s := Run(cs);
    if !Expired(cs, key) {
      assert (key, s.pending[key]) in Close(s);
    } else if !WrittenSince(cs, key) {
      WrittenIsPlain(cs, key);
      var h := Clone(s.pending[key]);
      assert h.fields == Written(cs, key);
      assert (key, h) in Close(s);
    }
  }

  lemma {:induction false} PairsPlain(items: seq<Bytes>)
    requires |items| % 2 == 0
    ensures forall i | 0 <= i < |Pairs(items)| :: Pairs(items)[i].unknown == []
  {
    if items != [] { PairsPlain(items[2..]); }
  }

  lemma {:induction false} WrittenIsPlain(cs: seq<Command>, key: Bytes)
    ensures forall i | 0 <= i < |Written(cs, key)| :: Written(cs, key)[i].unknown == []
    decreases |cs|
  {
    if cs != [] {
      WrittenIsPlain(cs[..|cs| - 1], key);
      var c := cs[|cs| - 1];
      if Writes(c, key) { PairsPlain(c.args[1..]); }
    }
  }

  /** HMSET a 1, EXPIRE, HMSET b 2, close: the second field is never handed over. */
  lemma LostField()
    ensures var cs := [HMSET([[7], [1], [1]]), EXPIRE([[7], [9]]), HMSET([[7], [2], [2]])];
            !exists h :: ([7], h) in Close(Run(cs)) && h.fields == Written(cs, [7])
  {
    var cs := [HMSET([[7], [1], [1]]), EXPIRE([[7], [9]]), HMSET([[7], [2], [2]])];
    var c2, c1 := cs[..2], cs[..1];
    assert c2[..1] == c1 && c1[..0] == [];
    assert Written(c1, [7]) == [Field([1], [1], [])];
    assert Written(c2, [7]) == Written(c1, [7]);
    assert Expired(c2, [7]) && Expired(cs, [7]) && WrittenSince(cs, [7]);
    assert Written(cs, [7]) != [];
    FinalContentsHanded(cs, [7]);
  }

  /** After any run, HGETALL of a written key answers the last-write-wins map of everything written to it, and the
      hash, once marshalled and read back, gives the same map. */
  lemma HGetAllOverRun(cs: seq<Command>, key: Bytes)
    requires Written(cs, key) != [] && |HmsetBytes(Clone(PendingOr(Run(cs), key)))| <= MAX_LEN
    ensures Apply(Run(cs), HGETALL([key])).1 == All(AsMap(Written(cs, key)))
    ensures AsMap(DecodeHmset(EMPTY_HMSET, 0, HmsetBytes(Clone(PendingOr(Run(cs), key)))).0.fields)
            == AsMap(Written(cs, key))
  {
    RunTracks(cs, key);
    MemoryAgreesWithStore(PendingOr(Run(cs), key));
  }

  //---- answers, read off the arguments -----------------------------------------------------------------------------

  /** The k-th pair of a list of arguments is a name and then its value. */
  lemma {:induction false} PairsAt(items: seq<Bytes>, k: nat)
    requires |items| % 2 == 0 && 2 * k < |items|
    ensures Pairs(items)[k] == Field(items[2 * k], items[2 * k + 1], [])
  {
    if k > 0 {
      PairsAt(items[2..], k - 1);
    }
  }

  /** Pair k of this command, counting from 0 after the key, sets field f of key. */
  predicate Sets(c: Command, key: Bytes, f: Bytes, k: nat) {
    && c.HMSET? && |c.args| >= 3 && |c.args| % 2 == 1 && c.args[0] == key
    && 2 * k + 2 < |c.args| && c.args[2 * k + 1] == f
  }

  /** No pair after pair k of command i, in that command or a later one, sets field f of key. */
  ghost predicate LastSet(cs: seq<Command>, key: Bytes, f: Bytes, i: nat, k: nat) {
    && i < |cs| && Sets(cs[i], key, f, k)
    && (forall l | l > k :: !Sets(cs[i], key, f, l))
    && (forall j, l: nat | i < j < |cs| :: !Sets(cs[j], key, f, l))
  }

  /** No pair before pair k of command i, in that command or an earlier one, sets field f of key. */
  ghost predicate FirstSet(cs: seq<Command>, key: Bytes, f: Bytes, i: nat, k: nat) {
    && i < |cs| && Sets(cs[i], key, f, k)
    && (forall l: nat | l < k :: !Sets(cs[i], key, f, l))
    && (forall j, l: nat | 0 <= j < i :: !Sets(cs[j], key, f, l))
  }

  lemma NamedBySets(c: Command, key: Bytes, p: nat)
    requires Writes(c, key) && p < |Pairs(c.args[1..])|
    ensures 2 * p + 2 < |c.args|
    ensures Pairs(c.args[1..])[p] == Field(c.args[2 * p + 1], c.args[2 * p + 2], [])
    ensures Sets(c, key, Pairs(c.args[1..])[p].name, p)
  {
    PairsAt(c.args[1..], p);
  }

  lemma {:induction false} LastPosition(cs: seq<Command>, key: Bytes, f: Bytes, i: nat, k: nat) returns (p: nat)
    requires LastSet(cs, key, f, i, k)
    ensures p < |Written(cs, key)| && Written(cs, key)[p] == Field(f, cs[i].args[2 * k + 2], [])
    ensures forall q | p < q < |Written(cs, key)| :: Written(cs, key)[q].name != f
    decreases |cs|
  {
    hide Pairs;
    var n := |cs| - 1;
    var before, c := Written(cs[..n], key), cs[n];
    if i == n {
      NamedBySets(c, key, k);
      p := |before| + k;
      forall q | p < q < |Written(cs, key)| ensures Written(cs, key)[q].name != f {
        NamedBySets(c, key, q - |before|);
      }
    } else {
      assert LastSet(cs[..n], key, f, i, k);
      p := LastPosition(cs[..n], key, f, i, k);
      forall q | p < q < |Written(cs, key)| ensures Written(cs, key)[q].name != f {
        if q >= |before| { NamedBySets(c, key, q - |before|); }
      }
    }
  }

  lemma {:induction false} FirstPosition(cs: seq<Command>, key: Bytes, f: Bytes, i: nat, k: nat) returns (p: nat)
    requires FirstSet(cs, key, f, i, k)
    ensures p < |Written(cs, key)| && Written(cs, key)[p] == Field(f, cs[i].args[2 * k + 2], [])
    ensures forall q | 0 <= q < p :: Written(cs, key)[q].name != f
    decreases |cs|
  {
    hide Pairs;
    var n := |cs| - 1;
    var before, c := Written(cs[..n], key), cs[n];
    if i == n {
      NamedBySets(c, key, k);
      p := |before| + k;
      NeverSetBefore(cs[..n], key, f);
      forall q | |before| <= q < p ensures Written(cs, key)[q].name != f { NamedBySets(c, key, q - |before|); }
    } else {
      assert FirstSet(cs[..n], key, f, i, k);
      p := FirstPosition(cs[..n], key, f, i, k);
    }
  }

  lemma {:induction false} NeverSetBefore(cs: seq<Command>, key: Bytes, f: Bytes)
    requires forall j, l: nat | 0 <= j < |cs| :: !Sets(cs[j], key, f, l)
    ensures forall q | 0 <= q < |Written(cs, key)| :: Written(cs, key)[q].name != f
    decreases |cs|
  {
    hide Pairs;
    if cs != [] {
      var n := |cs| - 1;
      NeverSetBefore(cs[..n], key, f);
      forall q | 0 <= q < |Written(cs, key)| ensures Written(cs, key)[q].name != f {
        if q >= |Written(cs[..n], key)| { NamedBySets(cs[n], key, q - |Written(cs[..n], key)|); }
      }
    }
  }

  /** After any run HGETALL of a key answers, for a field, the value that stood after the field's name the last time
      it was set. */
  lemma HGetAllAnswersLast(cs: seq<Command>, key: Bytes, f: Bytes, i: nat, k: nat)
    requires LastSet(cs, key, f, i, k)
    ensures var r := Apply(Run(cs), HGETALL([key])).1;
            r.All? && f in r.m && r.m[f] == cs[i].args[2 * k + 2]
  {
    hide Apply, Run;
    var p := LastPosition(cs, key, f, i, k);
    LastValueAt(Written(cs, key), p);
    HGetAllIs(cs, key);
  }

  lemma HGetAllIs(cs: seq<Command>, key: Bytes)
    requires Written(cs, key) != []
    ensures Apply(Run(cs), HGETALL([key])).1 == All(AsMap(Written(cs, key)))
  {
    RunTracks(cs, key);
  }

  /** After any run HGET answers the value that stood after the field's name the first time it was set. */
  lemma HGetAnswersFirst(cs: seq<Command>, key: Bytes, f: Bytes, i: nat, k: nat)
    requires FirstSet(cs, key, f, i, k)
    ensures Apply(Run(cs), HGET([key, f])).1 == One(cs[i].args[2 * k + 2])
  {
    hide Run, Tracks;
    var p := FirstPosition(cs, key, f, i, k);
    FirstValueKeys(Written(cs, key), f);
    RunTracks(cs, key);
    TrackedFields(cs, Run(cs), key);
  }

  lemma TrackedFields(cs: seq<Command>, s: State, key: Bytes)
    requires Tracks(cs, s, key)
    ensures PendingOr(s, key).fields == Written(cs, key) && (key in s.pending <==> Written(cs, key) != [])
  {
  }

  /** A field that was never set is not answered from memory. */
  lemma NeverSetNeverAnswered(cs: seq<Command>, key: Bytes, f: Bytes)
    requires forall j, l: nat | 0 <= j < |cs| :: !Sets(cs[j], key, f, l)
    ensures Apply(Run(cs), HGET([key, f])).1 == FromStore(key)
    ensures var r := Apply(Run(cs), HGETALL([key])).1; r.All? ==> f !in r.m
  {
    hide Run, Tracks;
    NeverSetBefore(cs, key, f);
    RunTracks(cs, key);
    TrackedFields(cs, Run(cs), key);
    FirstValueKeys(Written(cs, key), f);
    AsMapKeys(Written(cs, key), f);
    assert f !in AsMap(Written(cs, key));
    if Written(cs, key) != [] { HGetAllIs(cs, key); }
  }

  /** What each command is told: KO exactly for a wrong number of arguments, BadCommand exactly for an EXPIRE of a
      key that is empty or was never written, otherwise OK for the two that write; the two that read answer from
      memory or the store. */
  lemma RepliesExactly(cs: seq<Command>, c: Command)
    ensures var r, n := Apply(Run(cs), c).1, |c.args|;
            && (r == KO <==> (match c
                              case HMSET(_) => n < 3 || n % 2 == 0
                              case EXPIRE(_) => n != 2
                              case HGETALL(_) => n != 1
                              case HGET(_) => n != 2))
            && (r == BadCommand <==> c.EXPIRE? && n == 2 && (c.args[0] == [] || Written(cs, c.args[0]) == []))
            && (r == Fine ==> c.HMSET? || c.EXPIRE?)
            && (c.HMSET? || c.EXPIRE? ==> r in {KO, BadCommand, Fine})
            && (c.HGETALL? && n == 1 ==> (r == FromStore(c.args[0]) <==> Written(cs, c.args[0]) == []))
  {
    hide Run;
    if |c.args| >= 1 {
      RunTracks(cs, c.args[0]);
      TrackedFields(cs, Run(cs), c.args[0]);
    }
  }

  /** HMSET h name bob. */
  lemma NameThenValue()
    ensures var h, name, bob := [104], [110, 97, 109, 101], [98, 111, 98];
            var s := Run([HMSET([h, name, bob])]);
            && Apply(s, HGETALL([h])).1 == All(map[name := bob])
            && Apply(s, HGET([h, name])).1 == One(bob)
            && (Apply(s, HGET([h, bob])).1 == FromStore(h))
  {
    var h, name, bob := [104], [110, 97, 109, 101], [98, 111, 98];
    var cs := [HMSET([h, name, bob])];
    assert cs[..0] == [];
    assert Pairs([name, bob]) == [Field(name, bob, [])];
    var fs := [Field(name, bob, [])];
    assert Written(cs, h) == [] + fs == fs;
    assert name[0] != bob[0] && fs[1..] == [] && FirstValue([], bob) == None;
    assert FirstValue(fs, name) == Some(bob) && FirstValue(fs, bob) == None;
    RunTracks(cs, h);
    assert fs[..0] == [] && AsMap(fs) == map[][name := bob];
  }

  //---- the connection object ---------------------------------------------------------------------------------------

  /** processItems: consume the arguments two at a time, appending a field each turn. */
  method ProcessItems(fields: seq<Field>, items: seq<Bytes>) returns (r: seq<Field>)
    requires |items| % 2 == 0
    ensures r == fields + Pairs(items)
  {
    r := fields;
    var i := 0;
    while i < |items|
      invariant 0 <= i <= |items| && i % 2 == 0
      invariant fields + Pairs(items) == r + Pairs(items[i..])
    {
      assert items[i..][2..] == items[i + 2..];
      var name := items[i];
      i := i + 1;
      r := r + [Field(name, items[i], [])];
      i := i + 1;
    }
  }

  method GetAllAsRedis(h: Hmset) returns (t: map<Bytes, Bytes>)
    ensures t == AsMap(h.fields)
  {
    t := map[];
    var i := 0;
    while i < |h.fields|
      invariant 0 <= i <= |h.fields|
      invariant t == AsMap(h.fields[..i])
    {
      assert h.fields[..i + 1][..i] == h.fields[..i];
      t := t[h.fields[i].name := h.fields[i].value];
      i := i + 1;
    }
    assert h.fields[..i] == h.fields;
  }

  method GetOneAsRedis(h: Hmset, field: Bytes) returns (r: Option<Bytes>)
    ensures r == FirstValue(h.fields, field)
  {
    var i := 0;
    while i < |h.fields|
      invariant 0 <= i <= |h.fields|
      invariant FirstValue(h.fields, field) == FirstValue(h.fields[i..], field)
    {
      if h.fields[i].name == field { return Some(h.fields[i].value); }
      assert h.fields[i..][1..] == h.fields[i + 1..];
      i := i + 1;
    }
    r := None;
  }

  method CloneHmset(h: Hmset) returns (c: Hmset)
    ensures c == Clone(h)
  {
    c := Hmset(h.key, [], h.sent, []);
    var i := 0;
    while i < |h.fields|
      invariant 0 <= i <= |h.fields|
      invariant c == Hmset(h.key, CloneFields(h.fields[..i]), h.sent, [])
    {
      assert CloneFields(h.fields[..i + 1]) == CloneFields(h.fields[..i])
          + [Field(h.fields[i].name, h.fields[i].value, [])];
      c := c.(fields := c.fields + [Field(h.fields[i].name, h.fields[i].value, [])]);
      i := i + 1;
    }
    assert h.fields[..i] == h.fields;
  }

  class Connection {
    var pending: map<Bytes, Hmset>
    var handed: set<(Bytes, Hmset)>

    function View(): State
      reads this
    {
      State(pending, handed)
    }

    constructor ()
      ensures View() == Run([])
    {
      pending, handed := map[], {};
    }

    /** One turn of handleConnection's loop. */
    method Handle(c: Command) returns (reply: Reply)
      modifies this
      ensures (View(), reply) == Apply(old(View()), c)
    {
      match c
      case HMSET(args) =>
        if |args| < 3 || |args| % 2 != 1 { return KO; }
        var key := args[0];
        if key !in pending { pending := pending[key := EMPTY_HMSET]; }
        var fields := ProcessItems(pending[key].fields, args[1..]);
        pending := pending[key := pending[key].(fields := fields)];
        assert pending == old(pending)[key := pending[key]];
        reply := Fine;
      case EXPIRE(args) =>
        if |args| != 2 { return KO; }
        var key := args[0];
        if key !in pending || key == [] { return BadCommand; }
        pending := pending[key := pending[key].(sent := true)];
        var copy := CloneHmset(pending[key]);
        handed := handed + {(key, copy)};
        reply := Fine;
      case HGETALL(args) =>
        if |args| != 1 { return KO; }
        if args[0] !in pending { return FromStore(args[0]); }
        var m := GetAllAsRedis(pending[args[0]]);
        reply := All(m);
      case HGET(args) =>
        if |args| != 2 { return KO; }
        if args[0] in pending {
          var v := GetOneAsRedis(pending[args[0]], args[1]);
          if v.Some? { return One(v.value); }
        }
        reply := FromStore(args[0]);
    }

    /** The deferred loop: hand over every key not yet sent, in any order, and drop it. */
    method Flush()
      modifies this
      ensures pending == map[] && handed == Close(old(View()))
    {
      while pending != map[]
        invariant Close(old(View())) == Close(View())
        decreases |pending|
      {
        var key :| key in pending;
        var p := pending[key];
        ghost var before := View();
        if !p.sent && |p.fields| > 0 { handed := handed + {(key, p)}; }
        pending := map k | k in pending && k != key :: pending[k];
        assert pending.Keys == before.pending.Keys - {key};
        FlushOne(before, View(), key);
      }
    }
  }

  lemma FlushOne(s: State, s': State, key: Bytes)
    requires key in s.pending && s'.pending == map k | k in s.pending && k != key :: s.pending[k]
    requires s'.handed
             == s.handed + if !s.pending[key].sent && s.pending[key].fields != [] then {(key, s.pending[key])} else {}
    ensures Close(s') == Close(s)
  {
    forall x | x in Close(s) ensures x in Close(s') {
      if x !in s.handed && x.0 != key { assert x.0 in s'.pending; }
    }
  }
}

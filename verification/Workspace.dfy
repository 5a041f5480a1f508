/** A workspace: a versioned map kept as flat string keys in a shared store. */
module Workspace {
  import opened Basics
  import Decimal

  // ---------------------------------------------------------------------------
  // The store
  // ---------------------------------------------------------------------------

  datatype Value =
    | Blob(data: seq<byte>)
    | Hash(fields: map<string, string>)
    | Members(members: set<string>)

  /** The Redis commands that a workspace uses, on one flat key space. */
  class Redis {
    var store: map<string, Value>

    constructor ()
      ensures store == map[]
    {
      store := map[];
    }

    method SetBinary(key: string, data: seq<byte>)
      modifies this
      ensures store == old(store)[key := Blob(data)]
    {
      store := store[key := Blob(data)];
    }

    method GetBinary(key: string) returns (data: Option<seq<byte>>)
      ensures data == if key in store && store[key].Blob? then Some(store[key].data) else None
    {
      data := if key in store && store[key].Blob? then Some(store[key].data) else None;
    }

    method Del(key: string)
      modifies this
      ensures store == old(store) - {key}
    {
      store := store - {key};
    }

    method HSet(key: string, field: string, value: string)
      modifies this
      ensures store == old(store)[key := Hash(FieldsAt(old(store), key)[field := value])]
    {
      store := store[key := Hash(FieldsAt(store, key)[field := value])];
    }

    method HGet(key: string, field: string) returns (value: Option<string>)
      ensures value == if field in FieldsAt(store, key) then Some(FieldsAt(store, key)[field]) else None
    {
      var fields := FieldsAt(store, key);
      value := if field in fields then Some(fields[field]) else None;
    }

    /** Increments a decimal counter field; a missing one counts from 0. */
    method HIncr(key: string, field: string) returns (value: nat)
      modifies this
      ensures value == Counter(old(store), key, field) + 1
      ensures store == old(store)[key := Hash(FieldsAt(old(store), key)[field := Decimal.OfNat(value)])]
    {
      value := Counter(store, key, field) + 1;
      HSet(key, field, Decimal.OfNat(value));
    }

    method SAdd(key: string, member: string)
      modifies this
      ensures store == old(store)[key := Members(MembersAt(old(store), key) + {member})]
    {
      store := store[key := Members(MembersAt(store, key) + {member})];
    }

    /** Removing the last member removes the key. */
    method SRem(key: string, member: string)
      modifies this
      ensures store == RemoveMember(old(store), key, member)
    {
      var rest := MembersAt(store, key) - {member};
      store := if rest == {} then store - {key} else store[key := Members(rest)];
    }
  }

  function FieldsAt(store: map<string, Value>, key: string): map<string, string> {
    if key in store && store[key].Hash? then store[key].fields else map[]
  }

  function MembersAt(store: map<string, Value>, key: string): set<string> {
    if key in store && store[key].Members? then store[key].members else {}
  }

  function RemoveMember(store: map<string, Value>, key: string, member: string): map<string, Value> {
    var rest := MembersAt(store, key) - {member};
    if rest == {} then store - {key} else store[key := Members(rest)]
  }

  function Number(text: string): nat {
    if forall c :: c in text ==> Decimal.IsDigit(c) then Decimal.ParseNat(text) else 0
  }

  function Counter(store: map<string, Value>, key: string, field: string): nat {
    var fields := FieldsAt(store, key);
    if field in fields then Number(fields[field]) else 0
  }

  lemma NumberOfPrinted(n: nat)
    ensures Number(Decimal.OfNat(n)) == n
  {
    Decimal.ParsePrinted(n);
  }

  // ---------------------------------------------------------------------------
  // Keys
  // ---------------------------------------------------------------------------

  /** A key that applications may use: no ':' and no leading '_'. */
  predicate PlainKey(key: string) {
    (forall c :: c in key ==> c != ':') && (key != [] ==> key[0] != '_')
  }

  function Prefix(name: string): string {
    "labios:ws:" + name + ":"
  }

  function DataKey(name: string, key: string): string {
    Prefix(name) + key
  }

  function VersionKey(name: string, key: string, version: nat): string {
    Prefix(name) + key + ":v" + Decimal.OfNat(version)
  }

  function MetaKey(name: string, key: string): string {
    Prefix(name) + "_meta:" + key
  }

  function IndexKey(name: string): string {
    Prefix(name) + "_index"
  }

  /** What a store key holds for a workspace. */
  datatype Role = Data(key: string) | Version(key: string, version: nat) | Meta(key: string) | Index

  function KeyOf(name: string, role: Role): string {
    match role
    case Data(key) => DataKey(name, key)
    case Version(key, version) => VersionKey(name, key, version)
    case Meta(key) => MetaKey(name, key)
    case Index => IndexKey(name)
  }

  predicate PlainRole(role: Role) {
    role.Index? || PlainKey(role.key)
  }

  function Suffix(role: Role): string {
    match role
    case Data(key) => key
    case Version(key, version) => key + ":v" + Decimal.OfNat(version)
    case Meta(key) => "_meta:" + key
    case Index => "_index"
  }

  lemma KeySuffix(name: string, role: Role)
    ensures KeyOf(name, role) == Prefix(name) + Suffix(role)
  {
    match role
    case Version(key, version) =>
      assert Prefix(name) + key + ":v" + Decimal.OfNat(version) == Prefix(name) + (key + ":v" + Decimal.OfNat(version));
    case Meta(key) =>
      assert Prefix(name) + "_meta:" + key == Prefix(name) + ("_meta:" + key);
    case _ =>
  }

  predicate NoColon(s: string) {
    forall c :: c in s ==> c != ':'
  }

  lemma NoColonInNumber(n: nat)
    ensures NoColon("v" + Decimal.OfNat(n)) && PlainKey("v" + Decimal.OfNat(n))
  {
  }

  /** A ':' cannot stand after the last ':'. */
  lemma ColonNotAfter(k: string, s: string, i: nat)
    requires NoColon(s) && i < |k + ":" + s| && (k + ":" + s)[i] == ':'
    ensures i <= |k|
  {
    var whole := k + ":" + s;
    assert forall m :: |k| < m < |whole| ==> whole[m] == s[m - |k| - 1] && s[m - |k| - 1] in s;
  }

  lemma SameLength(k: string, j: string, s: string, t: string)
    requires k + ":" + s == j + ":" + t && |k| == |j|
    ensures k == j && s == t
  {
    var whole := k + ":" + s;
    assert k == whole[..|k|] && s == whole[|k| + 1..];
    assert j == whole[..|j|] && t == whole[|j| + 1..];
  }

  /** What stands before the last ':' is determined. */
  lemma LastColon(k: string, j: string, s: string, t: string)
    requires NoColon(s) && NoColon(t) && k + ":" + s == j + ":" + t
    ensures k == j && s == t
  {
    assert (k + ":" + s)[|k|] == ':' && (j + ":" + t)[|j|] == ':';
    ColonNotAfter(k, s, |j|);
    ColonNotAfter(j, t, |k|);
    SameLength(k, j, s, t);
  }

  lemma VersionsInjective(k: string, v: nat, j: string, w: nat)
    requires Suffix(Version(k, v)) == Suffix(Version(j, w))
    ensures k == j && v == w
  {
    var s, t := "v" + Decimal.OfNat(v), "v" + Decimal.OfNat(w);
    assert Suffix(Version(k, v)) == k + ":" + s && Suffix(Version(j, w)) == j + ":" + t;
    NoColonInNumber(v);
    NoColonInNumber(w);
    LastColon(k, j, s, t);
    assert Decimal.OfNat(v) == s[1..] && Decimal.OfNat(w) == t[1..];
    Decimal.OfNatInjective(v, w);
  }

  lemma ReservedStart(role: Role)
    ensures role.Meta? ==> |Suffix(role)| > 1 && Suffix(role)[0] == '_' && Suffix(role)[1] == 'm'
    ensures role.Index? ==> |Suffix(role)| > 1 && Suffix(role)[0] == '_' && Suffix(role)[1] == 'i'
  {
  }

  lemma SuffixInjective(a: Role, b: Role)
    requires PlainRole(a) && PlainRole(b) && Suffix(a) == Suffix(b)
    ensures a == b
  {
    ReservedStart(a);
    ReservedStart(b);
    match (a, b)
    case (Data(k), Version(j, v)) => VersionHasColon(j, v);
    case (Version(j, v), Data(k)) => VersionHasColon(j, v);
    case (Version(k, v), Version(j, w)) =>
      VersionsInjective(k, v, j, w);
    case (Version(k, v), Meta(j)) => VersionStart(k, v);
    case (Meta(j), Version(k, v)) => VersionStart(k, v);
    case (Version(k, v), Index) => VersionStart(k, v);
    case (Index, Version(k, v)) => VersionStart(k, v);
    case (Meta(k), Meta(j)) =>
      assert k == Suffix(a)[6..] && j == Suffix(b)[6..];
    case _ =>
  }

  lemma VersionHasColon(key: string, version: nat)
    ensures ':' in Suffix(Version(key, version))
  {
    assert Suffix(Version(key, version))[|key|] == ':';
  }

  lemma VersionStart(key: string, version: nat)
    requires PlainKey(key)
    ensures Suffix(Version(key, version))[0] != '_'
  {
    if key == [] {
      assert Suffix(Version(key, version))[0] == ':';
    } else {
      assert Suffix(Version(key, version))[0] == key[0];
    }
  }

  /** Keys with different roles never coincide. */
  lemma KeysDistinct(name: string, a: Role, b: Role)
    requires PlainRole(a) && PlainRole(b)
    ensures KeyOf(name, a) == KeyOf(name, b) <==> a == b
  {
    KeySuffix(name, a);
    KeySuffix(name, b);
    if KeyOf(name, a) == KeyOf(name, b) {
      assert Suffix(a) == KeyOf(name, a)[|Prefix(name)|..];
      assert Suffix(b) == KeyOf(name, b)[|Prefix(name)|..];
      SuffixInjective(a, b);
    }
  }

  // ---------------------------------------------------------------------------
  // Keys that coincide
  // ---------------------------------------------------------------------------

  /** The cases in which two different roles, of whatever keys, share a store key. */
  predicate Coincide(a: Role, b: Role) {
    match (a, b)
    case (Data(k), Version(j, v)) => k == j + ":v" + Decimal.OfNat(v)
    case (Version(j, v), Data(k)) => k == j + ":v" + Decimal.OfNat(v)
    case (Data(k), Meta(j)) => k == "_meta:" + j
    case (Meta(j), Data(k)) => k == "_meta:" + j
    case (Data(k), Index) => k == "_index"
    case (Index, Data(k)) => k == "_index"
    case (Version(k, v), Meta(j)) => k + ":v" + Decimal.OfNat(v) == "_meta:" + j
    case (Meta(j), Version(k, v)) => k + ":v" + Decimal.OfNat(v) == "_meta:" + j
    case _ => false
  }

  lemma SuffixesCoincide(a: Role, b: Role)
    ensures Suffix(a) == Suffix(b) <==> a == b || Coincide(a, b)
  {
    match (a, b)
    case (Version(k, v), Version(j, w)) =>
      if Suffix(a) == Suffix(b) {
        VersionsInjective(k, v, j, w);
      }
    case (Version(k, v), Index) => NotIndex(k, v);
    case (Index, Version(k, v)) => NotIndex(k, v);
    case (Meta(k), Meta(j)) =>
      assert k == Suffix(a)[6..] && j == Suffix(b)[6..];
    case (Meta(k), Index) => ReservedStart(a);
    case (Index, Meta(j)) => ReservedStart(b);
    case _ =>
  }

  lemma NotIndex(key: string, version: nat)
    ensures Suffix(Version(key, version)) != "_index"
  {
    VersionHasColon(key, version);
    assert ':' !in "_index";
  }

  lemma SuffixDecides(name: string, a: Role, b: Role)
    ensures KeyOf(name, a) == KeyOf(name, b) <==> Suffix(a) == Suffix(b)
  {
    KeySuffix(name, a);
    KeySuffix(name, b);
    assert Suffix(a) == KeyOf(name, a)[|Prefix(name)|..];
    assert Suffix(b) == KeyOf(name, b)[|Prefix(name)|..];
  }

  /** Two different roles of one workspace share a store key exactly in the cases of
      `Coincide`, whatever the keys. */
  lemma KeysCollide(name: string, a: Role, b: Role)
    requires a != b
    ensures KeyOf(name, a) == KeyOf(name, b) <==> Coincide(a, b)
  {
    SuffixDecides(name, a, b);
    SuffixesCoincide(a, b);
  }

  predicate RoleOf(role: Role, key: string) {
    !role.Index? && role.key == key
  }

  /** Some role of `key` has the store key of a different role of a plain key, or of
      the index. */
  ghost predicate CollidesWithPlain(name: string, key: string) {
    exists a, b :: RoleOf(a, key) && PlainRole(b) && a != b && KeyOf(name, a) == KeyOf(name, b)
  }

  /** Keys that no application should use besides plain ones. */
  ghost predicate ReservedKey(key: string) {
    || key == "_index"
    || key == "_meta"
    || (exists j :: PlainKey(j) && key == "_meta:" + j)
    || (exists j, v: nat :: PlainKey(j) && key == Suffix(Version(j, v)))
  }

  /** "_meta:" and a key without ':' is "_meta" before its last ':'. */
  lemma MetaVersion(k: string, v: nat, j: string)
    requires NoColon(j) && Suffix(Version(k, v)) == Suffix(Meta(j))
    ensures k == "_meta" && j == "v" + Decimal.OfNat(v)
  {
    NoColonInNumber(v);
    assert Suffix(Version(k, v)) == k + ":" + ("v" + Decimal.OfNat(v));
    assert Suffix(Meta(j)) == "_meta" + ":" + j;
    LastColon(k, "_meta", "v" + Decimal.OfNat(v), j);
  }

  lemma CollisionReserves(key: string, a: Role, b: Role)
    requires RoleOf(a, key) && PlainRole(b) && Coincide(a, b)
    ensures ReservedKey(key)
  {
    ReservedStart(a);
    ReservedStart(b);
    SuffixesCoincide(a, b);
    match (a, b)
    case (Version(j, v), Data(k)) =>
      VersionHasColon(j, v);
      assert false;
    case (Version(k, v), Meta(j)) =>
      MetaVersion(k, v, j);
    case (Meta(j), Version(k, v)) =>
      VersionStart(k, v);
      assert false;
    case (Data(k), Version(j, v)) =>
      assert k == Suffix(Version(j, v));
    case _ =>
  }

  /** Which keys collide with plain ones: not every key with a ':' or a leading '_',
      only the reserved names and what looks like a version of a plain key. */
  lemma ReservedExact(name: string, key: string)
    ensures CollidesWithPlain(name, key) <==> ReservedKey(key)
  {
    if CollidesWithPlain(name, key) {
      var a, b :| RoleOf(a, key) && PlainRole(b) && a != b && KeyOf(name, a) == KeyOf(name, b);
      KeysCollide(name, a, b);
      CollisionReserves(key, a, b);
    }
    if ReservedKey(key) {
      ReservedCollides(name, key);
    }
  }

  lemma Collision(name: string, key: string, a: Role, b: Role)
    requires RoleOf(a, key) && PlainRole(b) && a != b && Coincide(a, b)
    ensures CollidesWithPlain(name, key)
  {
    KeysCollide(name, a, b);
  }

  lemma ReservedCollides(name: string, key: string)
    requires ReservedKey(key)
    ensures CollidesWithPlain(name, key)
  {
    if key == "_index" {
      Collision(name, key, Data(key), Index);
    } else if key == "_meta" {
      NoColonInNumber(1);
      assert "_meta" + ":v" + Decimal.OfNat(1) == "_meta:" + ("v" + Decimal.OfNat(1));
      Collision(name, key, Version(key, 1), Meta("v" + Decimal.OfNat(1)));
    } else if j :| PlainKey(j) && key == "_meta:" + j {
      Collision(name, key, Data(key), Meta(j));
    } else {
      var j, v: nat :| PlainKey(j) && key == Suffix(Version(j, v));
      Collision(name, key, Data(key), Version(j, v));
    }
  }

  // ---------------------------------------------------------------------------
  // Workspaces that share store keys
  // ---------------------------------------------------------------------------

  lemma PrefixCancels(x: string, y: string)
    ensures "labios:ws:" + x == "labios:ws:" + y <==> x == y
  {
    assert x == ("labios:ws:" + x)[10..] && y == ("labios:ws:" + y)[10..];
  }

  predicate Continues(m: string, n: string) {
    |m| < |n| && n[..|m| + 1] == m + ":"
  }

  lemma ContinuesFrom(m: string, n: string, x: string, y: string)
    requires m != n && |m| <= |n| && m + ":" + x == n + ":" + y
    ensures Continues(m, n) && x == n[|m| + 1..] + ":" + y
  {
    var left, right := m + ":" + x, n + ":" + y;
    assert m == left[..|m|] && right[..|m|] == n[..|m|];
    assert n == right[..|n|] && left[|m|] == ':';
    assert x == left[|m| + 1..];
    assert right[|m| + 1..] == n[|m| + 1..] + ":" + y;
  }

  lemma ContinuesBack(m: string, n: string, x: string, y: string)
    requires Continues(m, n) && x == n[|m| + 1..] + ":" + y
    ensures m + ":" + x == n + ":" + y
  {
    assert n == m + ":" + n[|m| + 1..];
  }

  lemma ContinuesExact(m: string, n: string, x: string, y: string)
    requires m != n && |m| <= |n|
    ensures m + ":" + x == n + ":" + y <==> Continues(m, n) && x == n[|m| + 1..] + ":" + y
  {
    if m + ":" + x == n + ":" + y {
      ContinuesFrom(m, n, x, y);
    }
    if Continues(m, n) && x == n[|m| + 1..] + ":" + y {
      ContinuesBack(m, n, x, y);
    }
  }

  lemma AfterNamespace(name: string, role: Role)
    ensures KeyOf(name, role) == "labios:ws:" + (name + ":" + Suffix(role))
  {
    KeySuffix(name, role);
  }

  /** Roles of two workspaces have the same store key exactly if the longer name
      continues the shorter one after a ':' and the first role's key makes up for it. */
  lemma NamesCollide(m: string, n: string, a: Role, b: Role)
    requires m != n && |m| <= |n|
    ensures KeyOf(m, a) == KeyOf(n, b) <==>
      Continues(m, n) && Suffix(a) == n[|m| + 1..] + ":" + Suffix(b)
  {
    AfterNamespace(m, a);
    AfterNamespace(n, b);
    PrefixCancels(m + ":" + Suffix(a), n + ":" + Suffix(b));
    ContinuesExact(m, n, Suffix(a), Suffix(b));
  }

  /** Some plain roles of the two workspaces have the same store key. */
  ghost predicate ShareStoreKey(m: string, n: string) {
    exists a, b :: PlainRole(a) && PlainRole(b) && KeyOf(m, a) == KeyOf(n, b)
  }

  lemma ColonNotBefore(p: string, q: string, i: nat)
    requires NoColon(p) && i < |p + ":" + q| && (p + ":" + q)[i] == ':'
    ensures |p| <= i
  {
    var whole := p + ":" + q;
    assert forall m :: 0 <= m < |p| ==> whole[m] == p[m] && p[m] in p;
  }

  /** Before its only ':', a string is determined. */
  lemma OnlyColon(p: string, q: string, t: string, s: string)
    requires NoColon(p) && NoColon(q) && p + ":" + q == t + ":" + s
    ensures p == t
  {
    assert (t + ":" + s)[|t|] == ':';
    ColonNotAfter(p, q, |t|);
    ColonNotBefore(p, q, |t|);
    SameLength(p, t, q, s);
  }

  lemma BeforeColon(a: Role, t: string, rest: string)
    requires PlainRole(a) && Suffix(a) == t + ":" + rest
    ensures PlainKey(t) || t == "_meta"
  {
    assert Suffix(a)[|t|] == ':' && Suffix(a)[|t|] in Suffix(a);
    assert NoColon("_index");
    match a
    case Version(key, v) =>
      NoColonInNumber(v);
      assert Suffix(a) == key + ":" + ("v" + Decimal.OfNat(v));
      OnlyColon(key, "v" + Decimal.OfNat(v), t, rest);
    case Meta(key) =>
      assert Suffix(a) == "_meta" + ":" + key;
      OnlyColon("_meta", key, t, rest);
    case _ =>
  }

  /** Two workspaces whose applications use plain keys share a store key exactly if
      one name is the other, a ':', and then a plain key or "_meta". */
  lemma NamesCollideExact(m: string, n: string)
    requires m != n && |m| <= |n|
    ensures ShareStoreKey(m, n) <==>
      Continues(m, n) && (PlainKey(n[|m| + 1..]) || n[|m| + 1..] == "_meta")
  {
    if a, b :| PlainRole(a) && PlainRole(b) && KeyOf(m, a) == KeyOf(n, b) {
      NamesCollide(m, n, a, b);
      BeforeColon(a, n[|m| + 1..], Suffix(b));
    }
    if Continues(m, n) {
      assert n == m + ":" + n[|m| + 1..];
      NamesShare(m, n, n[|m| + 1..]);
    }
  }

  lemma NamesShare(m: string, n: string, t: string)
    requires n == m + ":" + t
    ensures PlainKey(t) || t == "_meta" ==> ShareStoreKey(m, n)
  {
    assert n[|m| + 1..] == t && n[..|m| + 1] == m + ":";
    var number := "v" + Decimal.OfNat(1);
    NoColonInNumber(1);
    if PlainKey(t) {
      assert Suffix(Version(t, 1)) == t + ":" + number;
      NamesCollide(m, n, Version(t, 1), Data(number));
    } else if t == "_meta" {
      NamesCollide(m, n, Meta(number), Data(number));
    }
  }

  // ---------------------------------------------------------------------------
  // The versioned map behind the keys
  // ---------------------------------------------------------------------------

  /** One put: its data and when it was made. */
  datatype Put = Put(data: seq<byte>, at: nat)

  /** For every key, the puts since the last delete. */
  type History = map<string, seq<Put>>

  function MetaFields(puts: seq<Put>): map<string, string>
    requires puts != []
  {
    var last := puts[|puts| - 1];
    map["version" := Decimal.OfNat(|puts|), "size" := Decimal.OfNat(|last.data|),
        "updated_us" := Decimal.OfNat(last.at)]
  }

  ghost predicate PlainHistory(history: History) {
    forall key :: key in history ==> PlainKey(key) && history[key] != []
  }

  /** What the store must hold for a role. */
  function Expected(history: History, role: Role): Option<Value>
    requires forall key :: key in history ==> history[key] != []
  {
    match role
    case Data(key) => if key in history then Some(Blob(history[key][|history[key]| - 1].data)) else None
    case Version(key, v) =>
      if key in history && 1 <= v <= |history[key]| then Some(Blob(history[key][v - 1].data)) else None
    case Meta(key) => if key in history then Some(Hash(MetaFields(history[key]))) else None
    case Index => if history == map[] then None else Some(Members(history.Keys))
  }

  function Lookup(store: map<string, Value>, key: string): Option<Value> {
    if key in store then Some(store[key]) else None
  }

  /** The flat store represents the history, with nothing missing or left behind. */
  ghost predicate Represents(store: map<string, Value>, name: string, history: History) {
    && PlainHistory(history)
    && forall role :: PlainRole(role) ==> Lookup(store, KeyOf(name, role)) == Expected(history, role)
  }

  function VersionKeys(name: string, key: string, n: nat): set<string> {
    if n == 0 then {} else VersionKeys(name, key, n - 1) + {VersionKey(name, key, n)}
  }

  lemma {:induction false} VersionKeysMember(name: string, key: string, n: nat, role: Role)
    requires PlainKey(key) && PlainRole(role)
    ensures KeyOf(name, role) in VersionKeys(name, key, n) <==>
      role.Version? && role.key == key && 1 <= role.version <= n
  {
    if n > 0 {
      VersionKeysMember(name, key, n - 1, role);
      KeysDistinct(name, role, Version(key, n));
    }
  }

  /** All store keys of one entry with `n` versions. */
  function EntryKeys(name: string, key: string, n: nat): set<string> {
    {DataKey(name, key), MetaKey(name, key)} + VersionKeys(name, key, n)
  }

  lemma EntryKeysMember(name: string, key: string, n: nat, role: Role)
    requires PlainKey(key) && PlainRole(role)
    ensures KeyOf(name, role) in EntryKeys(name, key, n) <==>
      !role.Index? && role.key == key && (role.Version? ==> 1 <= role.version <= n)
  {
    VersionKeysMember(name, key, n, role);
    KeysDistinct(name, role, Data(key));
    KeysDistinct(name, role, Meta(key));
  }

  function PutsAt(history: History, key: string): seq<Put> {
    if key in history then history[key] else []
  }

  /** The store after a put, as one update. */
  function PutUpdate(
      before: map<string, Value>, name: string, history: History, key: string, put: Put): map<string, Value>
  {
    var puts := PutsAt(history, key) + [put];
    before[DataKey(name, key) := Blob(put.data)]
          [VersionKey(name, key, |puts|) := Blob(put.data)]
          [MetaKey(name, key) := Hash(MetaFields(puts))]
          [IndexKey(name) := Members(history.Keys + {key})]
  }

  lemma PutLookup(before: map<string, Value>, name: string, history: History, key: string, put: Put, role: Role)
    requires PlainKey(key) && PlainRole(role)
    ensures
      var puts := PutsAt(history, key) + [put];
      Lookup(PutUpdate(before, name, history, key, put), KeyOf(name, role))
      == if role == Data(key) || role == Version(key, |puts|) then Some(Blob(put.data))
         else if role == Meta(key) then Some(Hash(MetaFields(puts)))
         else if role == Index then Some(Members(history.Keys + {key}))
         else Lookup(before, KeyOf(name, role))
  {
    KeysDistinct(name, role, Data(key));
    KeysDistinct(name, role, Version(key, |PutsAt(history, key)| + 1));
    KeysDistinct(name, role, Meta(key));
    KeysDistinct(name, role, Index);
  }

  lemma PutExpected(history: History, key: string, put: Put, role: Role)
    requires PlainHistory(history) && PlainKey(key)
    ensures
      var puts := PutsAt(history, key) + [put];
      Expected(history[key := puts], role)
      == if role == Data(key) || role == Version(key, |puts|) then Some(Blob(put.data))
         else if role == Meta(key) then Some(Hash(MetaFields(puts)))
         else if role == Index then Some(Members(history.Keys + {key}))
         else Expected(history, role)
  {
    assert history[key := PutsAt(history, key) + [put]].Keys == history.Keys + {key};
  }

  lemma PutRepresents(before: map<string, Value>, name: string, history: History, key: string, put: Put)
    requires Represents(before, name, history) && PlainKey(key)
    ensures Represents(PutUpdate(before, name, history, key, put), name, history[key := PutsAt(history, key) + [put]])
  {
    forall role | PlainRole(role)
      ensures Lookup(PutUpdate(before, name, history, key, put), KeyOf(name, role))
           == Expected(history[key := PutsAt(history, key) + [put]], role)
    {
      PutLookup(before, name, history, key, put, role);
      PutExpected(history, key, put, role);
      assert Lookup(before, KeyOf(name, role)) == Expected(history, role);
    }
  }

  /** The store after a delete. */
  lemma DelRepresents(
      before: map<string, Value>, after: map<string, Value>, name: string, history: History, key: string)
    requires Represents(before, name, history) && key in history
    requires after - {IndexKey(name)} == before - EntryKeys(name, key, |history[key]|) - {IndexKey(name)}
    requires Lookup(after, IndexKey(name)) == Expected(history - {key}, Index)
    ensures Represents(after, name, history - {key})
  {
    forall role | PlainRole(role)
      ensures Lookup(after, KeyOf(name, role)) == Expected(history - {key}, role)
    {
      EntryKeysMember(name, key, |history[key]|, role);
      KeysDistinct(name, role, Index);
      assert Lookup(before, KeyOf(name, role)) == Expected(history, role);
      if !role.Index? {
        OutsideSame(before, after, EntryKeys(name, key, |history[key]|), IndexKey(name), KeyOf(name, role));
      }
    }
  }

  lemma OutsideSame(before: map<string, Value>, after: map<string, Value>, gone: set<string>, index: string, k: string)
    requires after - {index} == before - gone - {index} && k != index
    ensures Lookup(after, k) == if k in gone then None else Lookup(before, k)
  {
    assert k in after <==> k in after - {index};
    assert k in before - gone <==> k in before - gone - {index};
  }

  /** The commands of one put. */
  method SendPut(redis: Redis, name: string, key: string, data: seq<byte>, now: nat) returns (version: nat)
    modifies redis
    ensures version == Counter(old(redis.store), MetaKey(name, key), "version") + 1
    ensures redis.store == PutCommands(old(redis.store), name, key, version, Put(data, now))
  {
    var mk := MetaKey(name, key);
    version := redis.HIncr(mk, "version");
    redis.SetBinary(DataKey(name, key), data);
    redis.SetBinary(VersionKey(name, key, version), data);
    redis.HSet(mk, "size", Decimal.OfNat(|data|));
    redis.HSet(mk, "updated_us", Decimal.OfNat(now));
    redis.SAdd(IndexKey(name), key);
  }

  lemma PutFrame(before: map<string, Value>, name: string, history: History, key: string, put: Put)
    ensures var touched := EntryKeys(name, key, |PutsAt(history, key)| + 1) + {IndexKey(name)};
      PutUpdate(before, name, history, key, put) - touched == before - touched
  {
    assert VersionKey(name, key, |PutsAt(history, key)| + 1) in VersionKeys(name, key, |PutsAt(history, key)| + 1);
  }

  /** Deletes the data, all versions and the metadata of an entry. */
  method DeleteKeys(redis: Redis, name: string, key: string, maxVersion: nat)
    modifies redis
    ensures redis.store == old(redis.store) - EntryKeys(name, key, maxVersion)
  {
    redis.Del(DataKey(name, key));
    for v := 0 to maxVersion
      invariant redis.store == old(redis.store) - ({DataKey(name, key)} + VersionKeys(name, key, v))
    {
      redis.Del(VersionKey(name, key, v + 1));
    }
    redis.Del(MetaKey(name, key));
  }

  // ---------------------------------------------------------------------------
  // The workspace
  // ---------------------------------------------------------------------------

  datatype Error = AccessDenied

  datatype Entry = Entry(key: string, version: nat, size: nat, updatedUs: nat)

  function EntryOf(key: string, puts: seq<Put>): Entry
    requires puts != []
  {
    Entry(key, |puts|, |puts[|puts| - 1].data|, puts[|puts| - 1].at)
  }

  ghost predicate DistinctKeys(entries: seq<Entry>) {
    forall i, j :: 0 <= i < j < |entries| ==> entries[i].key != entries[j].key
  }

  /** `entries` reports each of the `keys` once, as the history has it. */
  ghost predicate ListsHistory(entries: seq<Entry>, history: History, keys: set<string>) {
    && DistinctKeys(entries)
    && (forall e :: e in entries ==>
          e.key in keys && e.key in history && history[e.key] != [] && e == EntryOf(e.key, history[e.key]))
    && (forall key :: key in keys ==> exists e :: e in entries && e.key == key)
  }

  lemma ListMore(entries: seq<Entry>, history: History, keys: set<string>, key: string)
    requires ListsHistory(entries, history, keys) && key !in keys && key in history && history[key] != []
    ensures ListsHistory(entries + [EntryOf(key, history[key])], history, keys + {key})
  {
    var entry := EntryOf(key, history[key]);
    forall k | k in keys + {key}
      ensures exists e :: e in entries + [entry] && e.key == k
    {
      if k in keys {
        var e :| e in entries && e.key == k;
        assert e in entries + [entry];
      } else {
        assert entry in entries + [entry];
      }
    }
  }

  lemma EntryParsed(puts: seq<Put>)
    requires puts != []
    ensures var f, last := MetaFields(puts), puts[|puts| - 1];
      Number(f["version"]) == |puts| && Number(f["size"]) == |last.data| && Number(f["updated_us"]) == last.at
  {
    NumberOfPrinted(|puts|);
    NumberOfPrinted(|puts[|puts| - 1].data|);
    NumberOfPrinted(puts[|puts| - 1].at);
  }

  class Workspace {
    const name: string
    const owner: nat
    const redis: Redis
    var acl: set<nat>

    /** The puts of every key since its last delete. */
    ghost var history: History

    ghost predicate Valid()
      reads this, redis
    {
      owner in acl && Represents(redis.store, name, history)
    }

    constructor (name: string, owner: nat, redis: Redis)
      requires forall role :: PlainRole(role) ==> KeyOf(name, role) !in redis.store
      ensures Valid() && history == map[] && acl == {owner}
      ensures this.name == name && this.owner == owner && this.redis == redis
    {
      this.name, this.owner, this.redis := name, owner, redis;
      this.acl, this.history := {owner}, map[];
    }

    method GrantAccess(app: nat)
      requires Valid()
      modifies this`acl
      ensures Valid() && acl == old(acl) + {app}
    {
      acl := acl + {app};
    }

    /** The owner cannot be revoked. */
    method RevokeAccess(app: nat)
      requires Valid()
      modifies this`acl
      ensures Valid() && acl == if app == owner then old(acl) else old(acl) - {app}
    {
      if app == owner {
        return;
      }
      acl := acl - {app};
    }

    /** Appends to the history of the key and returns its new length. */
    method PutData(key: string, data: seq<byte>, app: nat, now: nat) returns (r: Result<nat, Error>)
      requires Valid() && PlainKey(key)
      modifies redis, this`history
      ensures Valid()
      ensures app !in acl ==> r == Err(AccessDenied) && redis.store == old(redis.store) && history == old(history)
      ensures app in acl ==>
        && history == old(history)[key := PutsAt(old(history), key) + [Put(data, now)]]
        && r == Ok(|history[key]|)
        && var touched := EntryKeys(name, key, |history[key]|) + {IndexKey(name)};
           redis.store - touched == old(redis.store) - touched
    {
      if app !in acl {
        return Err(AccessDenied);
      }
      ghost var before := redis.store;
      ghost var puts := PutsAt(history, key);
      CounterIsLength(before, name, history, key);
      var version := SendPut(redis, name, key, data, now);
      PutCommandsStore(before, name, history, key, Put(data, now));
      PutFrame(before, name, history, key, Put(data, now));
      PutRepresents(before, name, history, key, Put(data, now));
      history := history[key := puts + [Put(data, now)]];
      r := Ok(version);
    }

    /** The last value put, or nothing. */
    method Get(key: string, app: nat) returns (r: Result<Option<seq<byte>>, Error>)
      requires Valid() && PlainKey(key)
      ensures app !in acl ==> r == Err(AccessDenied)
      ensures app in acl ==>
        r == Ok(if key in history then Some(history[key][|history[key]| - 1].data) else None)
    {
      if app !in acl {
        return Err(AccessDenied);
      }
      assert Lookup(redis.store, KeyOf(name, Data(key))) == Expected(history, Data(key));
      var data := redis.GetBinary(DataKey(name, key));
      r := Ok(data);
    }

    /** The `version`-th value put since the last delete. */
    method GetVersion(key: string, version: nat, app: nat) returns (r: Result<Option<seq<byte>>, Error>)
      requires Valid() && PlainKey(key)
      ensures app !in acl ==> r == Err(AccessDenied)
      ensures app in acl ==>
        r == Ok(if key in history && 1 <= version <= |history[key]| then Some(history[key][version - 1].data) else None)
    {
      if app !in acl {
        return Err(AccessDenied);
      }
      assert Lookup(redis.store, KeyOf(name, Version(key, version))) == Expected(history, Version(key, version));
      var data := redis.GetBinary(VersionKey(name, key, version));
      r := Ok(data);
    }

    /** The metadata of one key. */
    method ReadEntry(key: string) returns (entry: Option<Entry>)
      requires Valid() && key in history
      ensures history[key] != [] && entry == Some(EntryOf(key, history[key]))
    {
      var mk := MetaKey(name, key);
      assert Lookup(redis.store, KeyOf(name, Meta(key))) == Expected(history, Meta(key));
      EntryParsed(history[key]);
      var version := redis.HGet(mk, "version");
      if version.None? {
        return None;
      }
      var size := redis.HGet(mk, "size");
      var stamp := redis.HGet(mk, "updated_us");
      entry := Some(Entry(key, Number(version.value), if size.Some? then Number(size.value) else 0,
                          if stamp.Some? then Number(stamp.value) else 0));
    }

    /** One entry for every key, with the length, last size and last time of its history. */
    method List(app: nat) returns (r: Result<seq<Entry>, Error>)
      requires Valid()
      ensures app !in acl ==> r == Err(AccessDenied)
      ensures app in acl ==> r.Ok? && ListsHistory(r.value, history, history.Keys)
    {
      if app !in acl {
        return Err(AccessDenied);
      }
      assert Lookup(redis.store, KeyOf(name, Index)) == Expected(history, Index);
      var rest := MembersAt(redis.store, IndexKey(name));
      var entries: seq<Entry> := [];
      while rest != {}
        invariant rest <= history.Keys && ListsHistory(entries, history, history.Keys - rest)
        decreases |rest|
      {
        var key :| key in rest;
        var entry := ReadEntry(key);
        if entry.Some? {
          ListMore(entries, history, history.Keys - rest, key);
          assert history.Keys - rest + {key} == history.Keys - (rest - {key});
          entries := entries + [entry.value];
        }
        rest := rest - {key};
      }
      assert history.Keys - {} == history.Keys;
      r := Ok(entries);
    }

    /** The entries whose key starts with `prefix`. */
    method ListPrefix(prefix: string, app: nat) returns (r: Result<seq<Entry>, Error>)
      requires Valid()
      ensures app !in acl ==> r == Err(AccessDenied)
      ensures app in acl ==> r.Ok? && ListsHistory(r.value, history, set key | key in history && prefix <= key)
    {
      var all := List(app);
      if all.Err? {
        return all;
      }
      var filtered: seq<Entry> := [];
      for i := 0 to |all.value|
        invariant forall e :: e in filtered <==> e in all.value[..i] && prefix <= e.key
        invariant DistinctKeys(filtered)
      {
        if prefix <= all.value[i].key {
          assert all.value[i].key !in set e | e in all.value[..i] :: e.key;
          filtered := filtered + [all.value[i]];
        }
      }
      assert all.value[..|all.value|] == all.value;
      r := Ok(filtered);
    }

    /** Forgets the key; no store key of the entry is left behind. */
    method Delete(key: string, app: nat) returns (r: Result<bool, Error>)
      requires Valid() && PlainKey(key)
      modifies redis, this`history
      ensures Valid()
      ensures app !in acl ==> r == Err(AccessDenied) && redis.store == old(redis.store) && history == old(history)
      ensures app in acl ==>
        && r == Ok(key in old(history))
        && history == old(history) - {key}
        && (forall role :: PlainRole(role) && !role.Index? && role.key == key ==> KeyOf(name, role) !in redis.store)
        && var touched := EntryKeys(name, key, |PutsAt(old(history), key)|) + {IndexKey(name)};
           redis.store - touched == old(redis.store) - touched
    {
      if app !in acl {
        return Err(AccessDenied);
      }
      ghost var before := redis.store;
      var mk := MetaKey(name, key);
      assert Lookup(before, KeyOf(name, Meta(key))) == Expected(history, Meta(key));
      var text := redis.HGet(mk, "version");
      if text == None {
        assert history - {key} == history;
        AbsentEntry(before, name, history, key);
        return Ok(false);
      }
      NumberOfPrinted(|history[key]|);
      var maxVersion := Number(text.value);
      DeleteKeys(redis, name, key, maxVersion);
      redis.SRem(IndexKey(name), key);
      IndexAfter(before, name, history, key);
      DelRepresents(before, redis.store, name, history, key);
      history := history - {key};
      AbsentEntry(redis.store, name, history, key);
      r := Ok(true);
    }
  }

  /** The store after the commands of one put, in the order they are sent. */
  function PutCommands(
      before: map<string, Value>, name: string, key: string, version: nat, put: Put): map<string, Value>
  {
    var mk, ik := MetaKey(name, key), IndexKey(name);
    var counted := before[mk := Hash(FieldsAt(before, mk)["version" := Decimal.OfNat(version)])];
    var stored := counted[DataKey(name, key) := Blob(put.data)][VersionKey(name, key, version) := Blob(put.data)];
    var sized := stored[mk := Hash(FieldsAt(stored, mk)["size" := Decimal.OfNat(|put.data|)])];
    var stamped := sized[mk := Hash(FieldsAt(sized, mk)["updated_us" := Decimal.OfNat(put.at)])];
    stamped[ik := Members(MembersAt(stamped, ik) + {key})]
  }

  /** The first of two updates of one key leaves no trace. */
  lemma Overwritten<K, V>(m: map<K, V>, k: K, a: K, b: K, x: V, y: V, v: V)
    requires k != a && k != b
    ensures m[k := x][a := v][b := v][k := y] == m[a := v][b := v][k := y]
  {
  }

  lemma PutKeysApart(name: string, key: string, version: nat)
    requires PlainKey(key)
    ensures MetaKey(name, key) != DataKey(name, key) && MetaKey(name, key) != VersionKey(name, key, version)
    ensures IndexKey(name) != MetaKey(name, key) && IndexKey(name) != DataKey(name, key)
    ensures IndexKey(name) != VersionKey(name, key, version)
  {
    KeysDistinct(name, Meta(key), Data(key));
    KeysDistinct(name, Meta(key), Version(key, version));
    KeysDistinct(name, Meta(key), Index);
    KeysDistinct(name, Index, Data(key));
    KeysDistinct(name, Index, Version(key, version));
  }

  lemma PutReads(before: map<string, Value>, name: string, history: History, key: string)
    requires Represents(before, name, history) && PlainKey(key)
    ensures FieldsAt(before, MetaKey(name, key)) == if key in history then MetaFields(history[key]) else map[]
    ensures MembersAt(before, IndexKey(name)) == history.Keys
  {
    assert Lookup(before, KeyOf(name, Meta(key))) == Expected(history, Meta(key));
    assert Lookup(before, KeyOf(name, Index)) == Expected(history, Index);
  }

  /** The commands of a put on any four different keys. */
  lemma PutSteps(
      before: map<string, Value>, mk: string, ik: string, dk: string, vk: string, data: Value, key: string,
      version: string, size: string, time: string)
    requires mk != dk && mk != vk && ik != mk && ik != dk && ik != vk
    ensures
      var fields := FieldsAt(before, mk);
      var stored := before[mk := Hash(fields["version" := version])][dk := data][vk := data];
      var sized := stored[mk := Hash(FieldsAt(stored, mk)["size" := size])];
      var stamped := sized[mk := Hash(FieldsAt(sized, mk)["updated_us" := time])];
      && MembersAt(stamped, ik) == MembersAt(before, ik)
      && stamped == before[dk := data][vk := data]
                          [mk := Hash(fields["version" := version]["size" := size]["updated_us" := time])]
  {
    var counted := Hash(FieldsAt(before, mk)["version" := version]);
    var all := Hash(FieldsAt(before, mk)["version" := version]["size" := size]["updated_us" := time]);
    Overwritten(before, mk, dk, vk, counted, all, data);
  }

  lemma PutCommandsStore(before: map<string, Value>, name: string, history: History, key: string, put: Put)
    requires Represents(before, name, history) && PlainKey(key)
    ensures PutCommands(before, name, key, |PutsAt(history, key)| + 1, put)
         == PutUpdate(before, name, history, key, put)
  {
    var puts := PutsAt(history, key) + [put];
    PutKeysApart(name, key, |puts|);
    PutReads(before, name, history, key);
    FieldsMerge(FieldsAt(before, MetaKey(name, key)), history, key, puts);
    PutSteps(before, MetaKey(name, key), IndexKey(name), DataKey(name, key), VersionKey(name, key, |puts|),
             Blob(put.data), key, Decimal.OfNat(|puts|), Decimal.OfNat(|put.data|), Decimal.OfNat(put.at));
  }

  /** The three metadata fields are all overwritten. */
  lemma FieldsMerge(fields: map<string, string>, history: History, key: string, puts: seq<Put>)
    requires puts != [] && PlainHistory(history)
    requires fields == if key in history then MetaFields(history[key]) else map[]
    ensures
      var last := puts[|puts| - 1];
      fields["version" := Decimal.OfNat(|puts|)]["size" := Decimal.OfNat(|last.data|)]
            ["updated_us" := Decimal.OfNat(last.at)] == MetaFields(puts)
  {
  }

  /** The index after the commands of a delete. */
  lemma IndexAfter(before: map<string, Value>, name: string, history: History, key: string)
    requires Represents(before, name, history) && key in history
    ensures var middle := before - EntryKeys(name, key, |history[key]|);
      var after := RemoveMember(middle, IndexKey(name), key);
      && after - {IndexKey(name)} == middle - {IndexKey(name)}
      && Lookup(after, IndexKey(name)) == Expected(history - {key}, Index)
  {
    var ik := IndexKey(name);
    var middle := before - EntryKeys(name, key, |history[key]|);
    EntryKeysMember(name, key, |history[key]|, Index);
    assert Lookup(before, KeyOf(name, Index)) == Expected(history, Index);
    assert MembersAt(middle, ik) == history.Keys;
    assert (history - {key}).Keys == history.Keys - {key};
    if history.Keys - {key} == {} {
      assert history - {key} == map[];
    } else {
      assert history - {key} != map[];
    }
  }

  /** The version counter in the store is the number of puts. */
  lemma CounterIsLength(store: map<string, Value>, name: string, history: History, key: string)
    requires Represents(store, name, history) && PlainKey(key)
    ensures Counter(store, MetaKey(name, key), "version") == |PutsAt(history, key)|
  {
    assert Lookup(store, KeyOf(name, Meta(key))) == Expected(history, Meta(key));
    NumberOfPrinted(|PutsAt(history, key)|);
  }

  lemma AbsentEntry(store: map<string, Value>, name: string, history: History, key: string)
    requires Represents(store, name, history) && PlainKey(key) && key !in history
    ensures forall role :: PlainRole(role) && !role.Index? && role.key == key ==> KeyOf(name, role) !in store
  {
    forall role | PlainRole(role) && !role.Index? && role.key == key
      ensures KeyOf(name, role) !in store
    {
      assert Lookup(store, KeyOf(name, role)) == Expected(history, role);
    }
  }
}

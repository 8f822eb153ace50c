/**
 The index of connected clients (iconnect-web/src/client_manager/storage.rs): per user and machine, the newest
 report. The program nests two maps; the specification is one flat map.
 */
module ClientIndex {
  import opened Wrappers

  type UserId = n: int | -0x8000_0000 <= n < 0x8000_0000
  type MachineId = nat

  datatype Token = Token(token: string, url: string, machine: MachineId, user: UserId)
  datatype Info = Info(token: Token, time: int)
  datatype Slot = Slot(user: UserId, machine: MachineId)

  type Flat = map<Slot, Info>
  type Nested = map<UserId, map<MachineId, Info>>

  function SlotOf(t: Token): Slot {
    Slot(t.user, t.machine)
  }

  // ---------------------------------------------------------------- the specification

  /** A report takes its slot unless a report at least as new is there. */
  function Report(f: Flat, info: Info): Flat {
    var k := SlotOf(info.token);
    if k in f && info.time <= f[k].time then f else f[k := info]
  }

  /** A departing client frees its slot if the slot still holds that client's URL. */
  function Leave(f: Flat, t: Token): Flat {
    var k := SlotOf(t);
    if k in f && f[k].token.url == t.url then f - {k} else f
  }

  datatype Op = Reported(info: Info) | Left(token: Token)

  function Apply(f: Flat, op: Op): Flat {
    match op
    case Reported(info) => Report(f, info)
    case Left(t) => Leave(f, t)
  }

  function Run(ops: seq<Op>): Flat {
    if ops == [] then map[] else Apply(Run(ops[..|ops| - 1]), ops[|ops| - 1])
  }

  lemma RunSnoc(ops: seq<Op>, op: Op)
    ensures Run(ops + [op]) == Apply(Run(ops), op)
  {
    assert (ops + [op])[..|ops|] == ops;
  }

  // ---------------------------------------------------------------- the nested maps

  /** Every token is filed under its own user and machine, and no user has an empty map. */
  predicate Filed(n: Nested) {
    && (forall u :: u in n ==> |n[u]| > 0)
    && (forall u, m :: u in n && m in n[u] ==> n[u][m].token.user == u && n[u][m].token.machine == m)
  }

  function Lookup(n: Nested, k: Slot): Option<Info> {
    if k.user in n && k.machine in n[k.user] then Some(n[k.user][k.machine]) else None
  }

  /** The nested maps hold what the flat map holds. */
  ghost predicate Holds(n: Nested, f: Flat) {
    forall k :: HoldsAt(n, f, k)
  }

  function UpdateInner(inner: map<MachineId, Info>, info: Info): map<MachineId, Info> {
    var m := info.token.machine;
    if m in inner && !(inner[m].time < info.time) then inner else inner[m := info]
  }

  function UpdateNested(n: Nested, info: Info): Nested {
    var u := info.token.user;
    n[u := UpdateInner(if u in n then n[u] else map[], info)]
  }

  function RemoveInner(inner: map<MachineId, Info>, t: Token): map<MachineId, Info> {
    if t.machine in inner && inner[t.machine].token.url == t.url && inner[t.machine].token.user == t.user
    then inner - {t.machine} else inner
  }

  function RemoveNested(n: Nested, t: Token): Nested {
    if t.user !in n then n
    else
      var inner := RemoveInner(n[t.user], t);
      if |inner| == 0 then n - {t.user} else n[t.user := inner]
  }

  predicate HoldsAt(n: Nested, f: Flat, k: Slot) {
    Lookup(n, k) == if k in f then Some(f[k]) else None
  }

  lemma UpdateRefinesAt(n: Nested, f: Flat, info: Info, k: Slot)
    requires HoldsAt(n, f, k)
    ensures HoldsAt(UpdateNested(n, info), Report(f, info), k)
  {
  }

  lemma UpdateFiles(n: Nested, info: Info)
    requires Filed(n)
    ensures Filed(UpdateNested(n, info))
  {
    assert info.token.machine in UpdateNested(n, info)[info.token.user];
  }

  /** A report does to the nested maps what it does to the flat one. */
  lemma UpdateRefines(n: Nested, f: Flat, info: Info)
    requires Filed(n) && Holds(n, f)
    ensures Filed(UpdateNested(n, info)) && Holds(UpdateNested(n, info), Report(f, info))
  {
    UpdateFiles(n, info);
    forall k: Slot ensures HoldsAt(UpdateNested(n, info), Report(f, info), k) {
      assert HoldsAt(n, f, k);
      UpdateRefinesAt(n, f, info, k);
    }
  }

  lemma RemoveRefinesAt(n: Nested, f: Flat, t: Token, k: Slot)
    requires Filed(n) && HoldsAt(n, f, k)
    ensures HoldsAt(RemoveNested(n, t), Leave(f, t), k)
  {
    if k.user == t.user && t.user in n {
      var inner := RemoveInner(n[t.user], t);
      assert |inner| == 0 ==> k.machine !in inner;
      assert k.machine in inner <==> k.machine in n[t.user] && k in Leave(f, t);
    }
  }

  lemma RemoveFiles(n: Nested, t: Token)
    requires Filed(n)
    ensures Filed(RemoveNested(n, t))
  {
  }

  /** A departure does to the nested maps what it does to the flat one. */
  lemma RemoveRefines(n: Nested, f: Flat, t: Token)
    requires Filed(n) && Holds(n, f)
    ensures Filed(RemoveNested(n, t)) && Holds(RemoveNested(n, t), Leave(f, t))
  {
    RemoveFiles(n, t);
    forall k: Slot ensures HoldsAt(RemoveNested(n, t), Leave(f, t), k) {
      assert HoldsAt(n, f, k);
      RemoveRefinesAt(n, f, t, k);
    }
  }

  /** One URL for each of the user's machines, in the given order of the machines. */
  ghost predicate UrlsInOrder(f: Flat, user: UserId, urls: seq<string>, order: seq<MachineId>) {
    && |urls| == |order|
    && (forall i :: 0 <= i < |order| ==> Slot(user, order[i]) in f && urls[i] == f[Slot(user, order[i])].token.url)
    && (forall i, j :: 0 <= i < j < |order| ==> order[i] != order[j])
    && (forall k :: k in f && k.user == user ==> k.machine in order)
  }

  // ---------------------------------------------------------------- the index object

  class Storage {
    var users: Nested
    ghost var history: seq<Op>

    /** The nested maps are in order and hold exactly what the history of calls leaves. */
    ghost predicate Valid()
      reads this
    {
      Filed(users) && Holds(users, Run(history))
    }

    constructor ()
      ensures Valid() && history == []
    {
      users := map[];
      history := [];
    }

    method UpdateClient(t: Token, time: int)
      requires Valid()
      modifies this
      ensures Valid() && history == old(history) + [Reported(Info(t, time))]
    {
      var info := Info(t, time);
      UpdateRefines(users, Run(history), info);
      var inner := if t.user in users then users[t.user] else map[];
      if t.machine in inner {
        if inner[t.machine].time < time {
          inner := inner[t.machine := info];
        }
      } else {
        inner := inner[t.machine := info];
      }
      users := users[t.user := inner];
      RunSnoc(history, Reported(info));
      history := history + [Reported(info)];
    }

    method RemoveClient(t: Token)
      requires Valid()
      modifies this
      ensures Valid() && history == old(history) + [Left(t)]
    {
      ghost var target := RemoveNested(users, t);
      RemoveRefines(users, Run(history), t);
      if t.user in users {
        var inner := users[t.user];
        if t.machine in inner && inner[t.machine].token.url == t.url && inner[t.machine].token.user == t.user {
          inner := inner - {t.machine};
        }
        assert inner == RemoveInner(users[t.user], t);
        if |inner| == 0 {
          users := users - {t.user};
        } else {
          users := users[t.user := inner];
        }
      }
      assert users == target;
      RunSnoc(history, Left(t));
      history := history + [Left(t)];
    }

    method GetClientUrl(user: UserId, machine: MachineId) returns (url: Option<string>)
      requires Valid()
      ensures var f, k := Run(history), Slot(user, machine);
              url == if k in f then Some(f[k].token.url) else None
    {
      var k := Slot(user, machine);
      assert HoldsAt(users, Run(history), k);
      if user in users && machine in users[user] {
        return Some(users[user][machine].token.url);
      }
      return None;
    }

    method ListUserClients(user: UserId) returns (urls: seq<string>)
      requires Valid()
      ensures exists order :: UrlsInOrder(Run(history), user, urls, order)
    {
      ghost var f := Run(history);
      var inner := if user in users then users[user] else map[];
      ghost var order: seq<MachineId>;
      urls, order := UrlsOf(inner);
      assert forall k :: k in f && k.user == user ==> HoldsAt(users, f, k);
      assert forall i :: 0 <= i < |order| ==> HoldsAt(users, f, Slot(user, order[i]));
      assert UrlsInOrder(f, user, urls, order);
    }

    method ListClients() returns (tokens: seq<Token>)
      requires Valid()
      ensures var f := Run(history);
              && (forall t :: t in tokens ==> SlotOf(t) in f && t == f[SlotOf(t)].token)
              && (forall i, j :: 0 <= i < j < |tokens| ==> SlotOf(tokens[i]) != SlotOf(tokens[j]))
              && (forall k :: k in f ==> f[k].token in tokens)
    {
      tokens := AllTokens(users, users.Keys);
      ListingIsFlat(users, Run(history), tokens);
    }
  }

  /** The URLs of one user's machines, in some order. */
  method UrlsOf(inner: map<MachineId, Info>) returns (urls: seq<string>, ghost order: seq<MachineId>)
    ensures |urls| == |order|
    ensures forall i :: 0 <= i < |order| ==> order[i] in inner && urls[i] == inner[order[i]].token.url
    ensures forall i, j :: 0 <= i < j < |order| ==> order[i] != order[j]
    ensures forall m :: m in inner ==> m in order
  {
    urls, order := [], [];
    var todo := inner.Keys;
    while todo != {}
      invariant todo <= inner.Keys
      invariant |urls| == |order|
      invariant forall i :: 0 <= i < |order| ==>
        order[i] in inner && order[i] !in todo && urls[i] == inner[order[i]].token.url
      invariant forall i, j :: 0 <= i < j < |order| ==> order[i] != order[j]
      invariant forall m :: m in inner ==> m in todo || m in order
      decreases |todo|
    {
      var m :| m in todo;
      urls, order := urls + [inner[m].token.url], order + [m];
      todo := todo - {m};
    }
  }

  predicate FiledToken(n: Nested, t: Token) {
    t.user in n && t.machine in n[t.user] && n[t.user][t.machine].token == t
  }

  /** Every token of the given users, each once. */
  ghost predicate ListsTokens(n: Nested, users: set<UserId>, tokens: seq<Token>) {
    && (forall t :: t in tokens ==> FiledToken(n, t) && t.user in users)
    && (forall i, j :: 0 <= i < j < |tokens| ==> SlotOf(tokens[i]) != SlotOf(tokens[j]))
    && (forall u, m :: u in users && u in n && m in n[u] ==> n[u][m].token in tokens)
  }

  /** The tokens of one user. */
  method TokensOf(n: Nested, u: UserId) returns (tokens: seq<Token>)
    requires Filed(n) && u in n
    ensures ListsTokens(n, {u}, tokens)
  {
    tokens := [];
    var todo := n[u].Keys;
    while todo != {}
      invariant todo <= n[u].Keys
      invariant forall i :: 0 <= i < |tokens| ==> FiledToken(n, tokens[i]) && tokens[i].user == u && tokens[i].machine !in todo
      invariant forall i, j :: 0 <= i < j < |tokens| ==> tokens[i].machine != tokens[j].machine
      invariant forall m :: m in n[u] && m !in todo ==> n[u][m].token in tokens
      decreases |todo|
    {
      var m :| m in todo;
      tokens := tokens + [n[u][m].token];
      todo := todo - {m};
    }
  }

  /** The tokens of the given users. */
  method AllTokens(n: Nested, users: set<UserId>) returns (tokens: seq<Token>)
    requires Filed(n) && users <= n.Keys
    ensures ListsTokens(n, users, tokens)
    decreases |users|
  {
    if users == {} {
      return [];
    }
    var u :| u in users;
    var others := users - {u};
    var rest := AllTokens(n, others);
    var mine := TokensOf(n, u);
    ListsAppend(n, others, u, rest, mine);
    assert others + {u} == users;
    return rest + mine;
  }

  lemma ListsAppend(n: Nested, users: set<UserId>, u: UserId, before: seq<Token>, mine: seq<Token>)
    requires u !in users && ListsTokens(n, users, before) && ListsTokens(n, {u}, mine)
    ensures ListsTokens(n, users + {u}, before + mine)
  {
    var all := before + mine;
    forall i, j | 0 <= i < j < |all| ensures SlotOf(all[i]) != SlotOf(all[j]) {
      if j < |before| {
        assert all[i] == before[i] && all[j] == before[j];
      } else if i < |before| {
        assert all[i] in before && all[j] in mine;
      } else {
        assert all[i] == mine[i - |before|] && all[j] == mine[j - |before|];
      }
    }
  }

  lemma ListingIsFlat(n: Nested, f: Flat, tokens: seq<Token>)
    requires Filed(n) && Holds(n, f) && ListsTokens(n, n.Keys, tokens)
    ensures forall t :: t in tokens ==> SlotOf(t) in f && t == f[SlotOf(t)].token
    ensures forall k :: k in f ==> f[k].token in tokens
  {
    forall t | t in tokens ensures SlotOf(t) in f && t == f[SlotOf(t)].token {
      assert HoldsAt(n, f, SlotOf(t));
    }
    forall k | k in f ensures f[k].token in tokens {
      assert HoldsAt(n, f, k);
    }
  }

  // ---------------------------------------------------------------- what the index means

  predicate ReportsTo(op: Op, k: Slot) {
    op.Reported? && SlotOf(op.info.token) == k
  }

  /** Call `j` is the departure, from slot `k`, of the client whose report the slot holds. */
  predicate Frees(ops: seq<Op>, j: nat, k: Slot)
    requires j < |ops|
  {
    && ops[j].Left? && SlotOf(ops[j].token) == k
    && k in Run(ops[..j]) && Run(ops[..j])[k].token.url == ops[j].token.url
  }

  /**
   The report of call `i` is the slot's entry: the slot was empty before call `start`, has not been freed since,
   and no report since then is newer, nor is an earlier one as new.
   */
  ghost predicate Newest(ops: seq<Op>, k: Slot, start: nat, i: nat) {
    && start <= i < |ops|
    && ReportsTo(ops[i], k)
    && k !in Run(ops[..start])
    && (forall j :: start <= j < |ops| && ReportsTo(ops[j], k) ==>
          ops[j].info.time <= ops[i].info.time && (j < i ==> ops[j].info.time < ops[i].info.time))
    && (forall j :: start <= j < |ops| ==> !Frees(ops, j, k))
  }

  /** What one more call does to the account of a slot. */
  lemma NewestExtends(ops: seq<Op>, k: Slot, start: nat, i: nat, op: Op)
    requires Newest(ops, k, start, i) && k in Run(ops) && k in Run(ops + [op])
    requires ReportsTo(op, k) ==> op.info.time <= ops[i].info.time
    ensures Newest(ops + [op], k, start, i)
  {
    SamePrefixes(ops, op, k);
    var all := ops + [op];
    forall j | start <= j < |all| ensures !Frees(all, j, k) {
      if j == |ops| {
        assert all[..j + 1] == all;
      } else {
        assert Frees(all, j, k) == Frees(ops, j, k);
      }
    }
  }

  lemma NewestReplaced(ops: seq<Op>, k: Slot, start: nat, i: nat, op: Op)
    requires Newest(ops, k, start, i) && k in Run(ops)
    requires ReportsTo(op, k) && ops[i].info.time < op.info.time
    ensures Newest(ops + [op], k, start, |ops|)
  {
    SamePrefixes(ops, op, k);
    var all := ops + [op];
    forall j | start <= j < |all| ensures !Frees(all, j, k) {
      if j == |ops| {
        assert all[..j + 1] == all && k in Run(all);
      } else {
        assert Frees(all, j, k) == Frees(ops, j, k);
      }
    }
  }

  lemma SamePrefixes(ops: seq<Op>, op: Op, k: Slot)
    ensures forall j :: 0 <= j <= |ops| ==> (ops + [op])[..j] == ops[..j]
    ensures forall j :: 0 <= j < |ops| ==> Frees(ops + [op], j, k) == Frees(ops, j, k)
    ensures Run(ops + [op]) == Apply(Run(ops), op)
  {
    var all := ops + [op];
    assert all[..|ops|] == ops;
    forall j | 0 <= j < |ops| ensures Frees(all, j, k) == Frees(ops, j, k) {
      assert all[..j] == ops[..j] && all[..j + 1] == ops[..j + 1];
    }
  }

  /** Every entry is the newest report to its slot since the slot was last empty, the earliest one on ties. */
  lemma {:induction false} EntryIsNewest(ops: seq<Op>, k: Slot) returns (start: nat, i: nat)
    requires k in Run(ops)
    ensures Newest(ops, k, start, i) && Run(ops)[k] == ops[i].info
  {
    var n := |ops| - 1;
    var before, op := ops[..n], ops[n];
    assert before + [op] == ops;
    if k in Run(before) {
      start, i := EntryIsNewest(before, k);
      if ReportsTo(op, k) && before[i].info.time < op.info.time {
        NewestReplaced(before, k, start, i, op);
        i := n;
      } else {
        NewestExtends(before, k, start, i, op);
      }
    } else {
      start, i := n, n;
      assert ops[..n + 1] == ops;
    }
  }

  /** A slot is empty exactly when every report to it has been followed by the slot being freed. */
  lemma {:induction false} EmptyIff(ops: seq<Op>, k: Slot)
    ensures k !in Run(ops) <==>
            forall i :: 0 <= i < |ops| && ReportsTo(ops[i], k) ==> exists j :: i < j < |ops| && Frees(ops, j, k)
  {
    if ops != [] {
      var n := |ops| - 1;
      var before := ops[..n];
      assert forall j :: 0 <= j <= n ==> before[..j] == ops[..j];
      assert ops[..n + 1] == ops;
      assert forall j :: 0 <= j < n ==> Frees(ops, j, k) == Frees(before, j, k);
      EmptyIff(before, k);
      if k in Run(before) {
        var i :| 0 <= i < n && ReportsTo(before[i], k) && forall j :: i < j < n ==> !Frees(before, j, k);
        assert ReportsTo(ops[i], k);
        if k !in Run(ops) {
          assert Frees(ops, n, k);
        } else {
          assert forall j :: i < j <= n ==> !Frees(ops, j, k);
        }
      } else if ReportsTo(ops[n], k) {
        assert k in Run(ops);
      }
    }
  }

  /** Tokens are filed under their own slot after any calls. */
  lemma {:induction false} TokensMatch(ops: seq<Op>)
    ensures forall k :: k in Run(ops) ==> SlotOf(Run(ops)[k].token) == k
  {
    if ops != [] {
      TokensMatch(ops[..|ops| - 1]);
    }
  }

  /** The late departure of a client that reconnected under another URL does not disturb the new connection. */
  lemma SupersededLeave(ops: seq<Op>, gone: Token, newer: Info)
    requires SlotOf(gone) == SlotOf(newer.token) && gone.url != newer.token.url
    requires SlotOf(newer.token) in Run(ops) ==> Run(ops)[SlotOf(newer.token)].time < newer.time
    ensures Run(ops + [Reported(newer)] + [Left(gone)]) == Run(ops + [Reported(newer)])
    ensures Run(ops + [Reported(newer)])[SlotOf(gone)] == newer
  {
    var a := ops + [Reported(newer)];
    assert a[..|a| - 1] == ops;
    var b := a + [Left(gone)];
    assert b[..|b| - 1] == a;
  }
}

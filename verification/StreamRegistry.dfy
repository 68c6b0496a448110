/** The WebSocket clients of the stream API: one-shot closing, and the per-user lists they are registered in. */
module StreamRegistry {
  import opened Lists

  /** uniq */
  method Uniq<T(==)>(s: seq<T>) returns (r: seq<T>)
    ensures r == Firsts(s)
  {
    var m: set<T> := {};
    r := [];
    for n := 0 to |s|
      invariant r == Firsts(s[..n])
      invariant forall x :: x in m <==> x in r
    {
      assert s[..n + 1][..n] == s[..n];
      if s[n] !in m {
        m := m + {s[n]};
        r := r + [s[n]];
      }
    }
    assert s[..|s|] == s;
  }

  // ---------------------------------------------------------------------------------------------
  // Clients and the registry

  class Client {
    const userId: nat
    const token: string
    var done: bool
    var closed: bool

    constructor (userId: nat, token: string)
      ensures this.userId == userId && this.token == token && !done && !closed
    {
      this.userId, this.token, done, closed := userId, token, false, false;
    }

    /** once.mayExecute */
    method MayExecute() returns (first: bool)
      modifies this`done
      ensures first == !old(done) && done
    {
      first := !done;
      done := true;
    }

    /** Closing the channel a second time would panic; the one-shot flag rules it out. */
    method Close()
      requires closed ==> done
      modifies this
      ensures done && closed == (old(closed) || !old(done))
    {
      var first := MayExecute();
      if first {
        assert !closed;
        closed := true;
      }
    }
  }

  function Listed<T>(clients: map<nat, seq<T>>, userId: nat): seq<T> {
    if userId in clients then clients[userId] else []
  }

  /** append(clients[:i], clients[i+1:]...): the elements behind position i move down inside the same array. */
  method SpliceOut(a: array<Client>, i: nat, length: nat)
    requires i < length <= a.Length
    modifies a
    ensures a[..length - 1] == old(a[..i]) + old(a[i + 1..length])
  {
    ghost var was := a[..];
    var k := i;
    while k + 1 < length
      invariant i <= k < length
      invariant forall m :: 0 <= m < i ==> a[m] == was[m]
      invariant forall m :: i <= m < k ==> a[m] == was[m + 1]
      invariant forall m :: k <= m < length ==> a[m] == was[m]
    {
      a[k] := a[k + 1];
      k := k + 1;
    }
    assert was[..i] == old(a[..i]) && was[i + 1..length] == old(a[i + 1..length]);
    assert a[..length - 1] == was[..i] + was[i + 1..length];
  }

  /** What one turn of the deletion loop makes of the list. */
  function Visited(list: seq<Client>, i: nat, token: string): seq<Client>
    requires i < |list|
  {
    if list[i].token == token then list[..i] + list[i + 1..] else list
  }

  /** The list once the positions from i on have been visited. */
  ghost predicate DoneFrom(list: seq<Client>, start: seq<Client>, i: nat, token: string) {
    i <= |start| && list == start[..i] + Without(start[i..], (c: Client) => c.token == token)
  }

  lemma VisitOne(list: seq<Client>, start: seq<Client>, i: nat, token: string)
    requires i < |start| && DoneFrom(list, start, i + 1, token)
    ensures i < |list| && list[i] == start[i] && DoneFrom(Visited(list, i, token), start, i, token)
  {
    var drop := (c: Client) => c.token == token;
    WithoutStep(start, i, drop);
    hide Without;
    assert list[..i] == start[..i] && list[i + 1..] == Without(start[i + 1..], drop);
  }

  lemma VisitEnds(list: seq<Client>, start: seq<Client>, token: string)
    ensures DoneFrom(list, list, |list|, token)
    ensures DoneFrom(list, start, 0, token) ==> list == Without(start, (c: Client) => c.token == token)
  {
    assert start[0..] == start;
  }

  /** The body of the deletion loop: the client at position i is closed and taken out if it has the token. */
  method CloseAt(client: Client, a: array<Client>, i: nat, length: nat, token: string) returns (left: nat)
    requires i < length <= a.Length && a[i] == client && (client.closed ==> client.done)
    modifies a, client
    ensures left <= length && a[..left] == Visited(old(a[..length]), i, token)
    ensures ShutFor(client, token, old(client.done), old(client.closed), client.done, client.closed)
    ensures (client.closed ==> client.done) && (client.token == token ==> client.done)
  {
    left := length;
    if client.token == token {
      client.Close();
      assert a[..length][..i] == a[..i] && a[..length][i + 1..] == a[i + 1..length];
      SpliceOut(a, i, length);
      left := length - 1;
    }
  }

  /** Deleting backwards in place leaves what a filter would, and closes exactly what it removes. */
  method CloseAndDrop(a: array<Client>, length: nat, token: string, ghost start: seq<Client>) returns (left: nat)
    requires length <= a.Length && start == a[..length] && forall c <- start :: c.closed ==> c.done
    modifies a, start
    ensures left <= a.Length && a[..left] == Without(start, (c: Client) => c.token == token)
    ensures forall c <- start :: ShutFor(c, token, old(c.done), old(c.closed), c.done, c.closed) && (c.token == token ==> c.done)
  {
    left := length;
    var i := length;
    VisitEnds(start, start, token);
    hide Without, Visited, DoneFrom, ShutFor;
    forall c <- start ensures ShutFor(c, token, c.done, c.closed, c.done, c.closed) { ShutRefl(c, token); }
    while i > 0
      invariant 0 <= i <= |start| == length && left <= length && DoneFrom(a[..left], start, i, token)
      invariant forall c <- start :: (c.closed ==> c.done) && ShutFor(c, token, old(c.done), old(c.closed), c.done, c.closed)
      invariant forall c <- start[i..] :: c.token == token ==> c.done
    {
      i := i - 1;
      ghost var list := a[..left];
      VisitOne(list, start, i, token);
      assert start[i..] == [start[i]] + start[i + 1..];
      var client := a[i];
      assert client == list[i];
      ghost var done, closed := client.done, client.closed;
      left := CloseAt(client, a, i, left, token);
      ShutTwice(client, token, old(client.done), old(client.closed), done, closed, client.done, client.closed);
    }
    VisitEnds(a[..left], start, token);
    assert start[0..] == start;
  }

  /** The same for clients with the token; the others stay as they are. */
  predicate ShutFor(c: Client, token: string, done: bool, closed: bool, done': bool, closed': bool) {
    ShutOnce(done, closed, done', closed') && (c.token != token ==> done' == done && closed' == closed)
  }

  lemma ShutRefl(c: Client, token: string)
    ensures ShutFor(c, token, c.done, c.closed, c.done, c.closed)
  {
  }

  lemma ShutTwice(c: Client, token: string, d: bool, e: bool, d': bool, e': bool, d'': bool, e'': bool)
    requires ShutFor(c, token, d, e, d', e') && ShutFor(c, token, d', e', d'', e'')
    ensures ShutFor(c, token, d, e, d'', e'')
  {
  }

  /** The flag is never taken back, and a channel is closed only by the call that sets the flag. */
  predicate ShutOnce(done: bool, closed: bool, done': bool, closed': bool) {
    (done ==> done') && closed' == (closed || (done' && !done))
  }

  class Registry {
    var clients: map<nat, seq<Client>>

    constructor ()
      ensures clients == map[]
    {
      clients := map[];
    }

    method Register(client: Client)
      modifies this
      ensures clients == old(clients)[client.userId := Listed(old(clients), client.userId) + [client]]
    {
      clients := clients[client.userId := Listed(clients, client.userId) + [client]];
    }

    method Remove(client: Client)
      modifies this
      ensures clients == if client.userId in old(clients)
                         then old(clients)[client.userId := RemoveFirst(old(clients)[client.userId], client)] else old(clients)
    {
      if client.userId in clients {
        var list := clients[client.userId];
        var i := 0;
        while i < |list| && list[i] != client
          invariant 0 <= i <= |list| && forall k :: 0 <= k < i ==> list[k] != client
        {
          i := i + 1;
        }
        if i < |list| {
          RemoveFirstAt(list, client, i);
          clients := clients[client.userId := list[..i] + list[i + 1..]];
        } else {
          RemoveAbsent(list, client);
        }
      }
    }

    method NotifyDeletedClient(userId: nat, token: string)
      requires forall c <- Listed(clients, userId) :: c.closed ==> c.done
      modifies this, Listed(clients, userId)
      ensures clients == if userId in old(clients)
                         then old(clients)[userId := Without(old(clients)[userId], (c: Client) => c.token == token)] else old(clients)
      ensures forall c <- Listed(old(clients), userId) ::
                ShutFor(c, token, old(c.done), old(c.closed), c.done, c.closed) && (c.token == token ==> c.done)
    {
      if userId in clients {
        var list := clients[userId];
        var backing := new Client[|list|](i requires 0 <= i < |list| => list[i]);
        assert backing[..|list|] == list;
        var left := CloseAndDrop(backing, |list|, token, list);
        clients := clients[userId := backing[..left]];
      }
    }

    method NotifyDeletedUser(userId: nat)
      requires forall c <- Listed(clients, userId) :: c.closed ==> c.done
      modifies this, Listed(clients, userId)
      ensures clients == old(clients) - {userId}
      ensures forall c <- Listed(old(clients), userId) :: c.done && c.closed == (old(c.closed) || !old(c.done))
    {
      if userId in clients {
        var list := clients[userId];
        CloseAll(list);
        clients := clients - {userId};
      }
    }
  }

  method CloseAll(list: seq<Client>)
    requires forall c <- list :: c.closed ==> c.done
    modifies list
    ensures forall c <- list :: c.done && c.closed == (old(c.closed) || !old(c.done))
  {
    for i := 0 to |list|
      invariant forall c <- list :: c.closed ==> c.done
      invariant forall k :: 0 <= k < i ==> list[k].done
      invariant forall c <- list :: c.closed == (old(c.closed) || (c.done && !old(c.done))) && (old(c.done) ==> c.done)
    {
      list[i].Close();
    }
  }
}

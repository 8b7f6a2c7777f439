/**
 The client's mutable flight table.  Each method is one critical section of the
 client and is proved to take the step of `SingleFlight` on the table's abstract value.
 */
module FlightClient {
  import opened Wrappers
  import opened SingleFlight
  import FlightKeys

  class FlightRecord {
    const key: string
    ghost const id: nat
    var waiters: int
    var done: bool
    var reply: Option<Outcome>
    var cancelled: bool

    constructor (key: string, ghost id: nat)
      ensures this.key == key && this.id == id
      ensures waiters == 1 && !done && reply == None && !cancelled
    {
      this.key, this.id := key, id;
      waiters, done, reply, cancelled := 1, false, None, false;
    }

    ghost function Value(): Flight
      reads this
    {
      Flight(key, waiters, if done then 1 else 0, reply, cancelled)
    }
  }

  datatype Entry = Rejected(reason: string) | Joined(record: FlightRecord, leader: bool)

  class Client {
    const offline: bool
    const username: string
    const capacity: nat
    var permits: nat
    var flights: map<string, FlightRecord>
    ghost var all: seq<FlightRecord>  // every flight ever started; its index is its identity

    ghost predicate Valid()
      reads this, all
    {
      && (forall i | 0 <= i < |all| :: all[i].id == i)
      && (forall key | key in flights :: flights[key] in all)
      && permits <= capacity
    }

    ghost function Abstract(): Shared
      requires Valid()
      reads this, all
    {
      Shared(seq(|all|, i requires 0 <= i < |all| reads this, all => all[i].Value()), map key | key in flights ::
          flights[key].id)
    }

    constructor (offline: bool, username: string, maxParallel: int)
      ensures Valid() && fresh(all) && all == []
      ensures this.offline == offline && this.username == username
      ensures permits == 0 && capacity == Capacity(maxParallel)
      ensures Abstract() == Initial(maxParallel).shared
    {
      this.offline, this.username := offline, username;
      capacity := if maxParallel < 1 then 1 else maxParallel;
      permits, flights, all := 0, map[], [];
    }

    method AddWaiter(key: string) returns (current: FlightRecord)
      requires Valid() && key in flights
      modifies all
      ensures Valid() && current in all
      ensures (Abstract(), current.id, false) == Join(old(Abstract()), key)
    {
      ghost var (expected, _, _) := Join(Abstract(), key);
      current := flights[key];
      current.waiters := current.waiters + 1;
      assert Abstract().flights == expected.flights;
    }

    method StartFlight(key: string) returns (current: FlightRecord)
      requires Valid() && key !in flights
      modifies this`flights, this`all
      ensures Valid() && fresh(current) && all == old(all) + [current]
      ensures (Abstract(), current.id, true) == Join(old(Abstract()), key)
    {
      ghost var (expected, _, _) := Join(Abstract(), key);
      current := new FlightRecord(key, |all|);
      flights := flights[key := current];
      all := all + [current];
      assert Abstract().flights == expected.flights;
      assert Abstract().registry == expected.registry;
    }

    /** Finds or starts the flight of a key. */
    method JoinFlight(key: string) returns (current: FlightRecord, leader: bool)
      requires Valid()
      modifies this`flights, this`all, all
      ensures Valid() && old(all) <= all
      ensures forall r | r in all && r !in old(all) :: fresh(r)
      ensures current in all
      ensures (Abstract(), current.id, leader) == Join(old(Abstract()), key)
    {
      if key in flights {
        current := AddWaiter(key);
        leader := false;
      } else {
        current := StartFlight(key);
        leader := true;
      }
    }

    method LeaveFlight(key: string, current: FlightRecord)
      requires Valid() && current in all
      modifies this`flights, all
      ensures Valid() && all == old(all)
      ensures Abstract() == Leave(old(Abstract()), key, current.id)
    {
      current.waiters := current.waiters - 1;
      if current.waiters <= 0 {
        current.cancelled := true;
        if key in flights && flights[key] == current {
          flights := flights - {key};
        }
      }
    }

    /** The locked part of runFlight; closing a closed channel would panic. */
    method PublishFlight(key: string, current: FlightRecord, outcome: Outcome)
      requires Valid() && current in all && !current.done
      modifies this`flights, all
      ensures Valid() && all == old(all)
      ensures Abstract() == Publish(old(Abstract()), key, current.id, outcome)
    {
      current.reply := Some(outcome);
      current.done := true;
      flights := flights - {key};
    }

    /** The non-blocking view of taking a permit: it fails where the source would wait. */
    method TryAcquire() returns (ok: bool)
      requires Valid()
      modifies this`permits
      ensures Valid()
      ensures ok <==> old(permits) < capacity
      ensures permits == if ok then old(permits) + 1 else old(permits)
    {
      ok := permits < capacity;
      if ok {
        permits := permits + 1;
      }
    }

    method Release()
      requires Valid() && permits > 0
      modifies this`permits
      ensures Valid() && permits == old(permits) - 1
    {
      permits := permits - 1;
    }

    function FlightKey(rawURL: string, auth: bool, maxBytes: int): string {
      FlightKeys.FlightKey(rawURL, auth, maxBytes, username)
    }

    /** The start of Get: refuse, or join the flight of the request's key. */
    method BeginGet(rawURL: string, auth: bool, maxBytes: int) returns (entry: Entry)
      requires Valid()
      modifies this`flights, this`all, all
      ensures Valid()
      ensures maxBytes <= 0 ==> entry == Rejected("response byte limit must be positive")
      ensures maxBytes > 0 && offline ==> entry == Rejected("HTTP is disabled in offline mode")
      ensures entry.Rejected? ==> Abstract() == old(Abstract())
      ensures maxBytes > 0 && !offline ==>
        entry.Joined? && entry.record in all
        && (Abstract(), entry.record.id, entry.leader) == Join(old(Abstract()), FlightKey(rawURL, auth, maxBytes))
    {
      if maxBytes <= 0 {
        return Rejected("response byte limit must be positive");
      }
      if offline {
        return Rejected("HTTP is disabled in offline mode");
      }
      var current, leader := JoinFlight(FlightKey(rawURL, auth, maxBytes));
      entry := Joined(current, leader);
    }
  }
}

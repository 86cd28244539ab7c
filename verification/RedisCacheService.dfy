/** The shared JSON cache: every failure of its client is swallowed, and remembered. */
module RedisCacheService {
  import opened Wrappers
  import opened Json
  import opened Endpoints

  class CacheService {
    const defaultTtl: int
    var entries: map<string, Entry>
    var faults: seq<bool>
    var available: bool

    constructor (defaultTtl: int, faults: seq<bool>)
      ensures entries == map[] && this.faults == faults && available && this.defaultTtl == defaultTtl
    {
      this.defaultTtl := defaultTtl;
      this.faults := faults;
      entries := map[];
      available := true;
    }

    function State(): Redis
      reads this
    {
      Redis(entries, faults)
    }

    /** Send one command: the client either raises or not. */
    method Send() returns (raised: bool)
      modifies this`faults, this`available
      ensures raised == Fails(old(State())) && State() == Next(old(State()))
      ensures available == (old(available) && !raised)
    {
      raised := faults != [] && faults[0];
      if faults != [] { faults := faults[1..]; }
      if raised { available := false; }
    }

    method GetJson(key: string, now: Time) returns (payload: Option<Json>)
      modifies this`faults, this`available
      ensures payload == Get(old(State()), key, now) && State() == Next(old(State()))
      ensures available == (old(available) && !Fails(old(State())))
    {
      var raised := Send();
      if raised { return None; }
      if key !in entries || entries[key].diesAt <= now { return None; }
      return Some(entries[key].payload);
    }

    method SetJson(key: string, payload: Json, now: Time)
      modifies this
      ensures State() == Set(old(State()), key, payload, now, defaultTtl)
      ensures available == (old(available) && !Fails(old(State())))
    {
      var raised := Send();
      if !raised { entries := entries[key := Entry(payload, now + defaultTtl)]; }
    }

    /** `delete`, and `delete_many` of a non-empty list */
    method Delete(keys: set<string>)
      modifies this
      ensures State() == Drop(old(State()), keys)
      ensures available == (old(available) && !Fails(old(State())))
    {
      var raised := Send();
      if !raised { entries := entries - keys; }
    }
  }
}

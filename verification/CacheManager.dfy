/** `ResponseCacheManager` of cache/manager.py, and the check-before-call, store-after-call use of
    it by the completion route.  The request is represented by its cache key. */
module CacheManager {
  import opened Wrappers
  import opened LruCache
  import opened LruRuns

  datatype Request = Request(key: Key, stream: bool, noCache: bool)

  class ResponseCacheManager {
    const backend: InMemoryCacheBackend
    const defaultTtl: int
    const skipStreaming: bool
    var enabled: bool

    constructor (backend: InMemoryCacheBackend, defaultTtl: int, skipStreaming: bool)
      ensures this.backend == backend && this.defaultTtl == defaultTtl && this.skipStreaming == skipStreaming && enabled
    {
      this.backend, this.defaultTtl, this.skipStreaming, enabled := backend, defaultTtl, skipStreaming, true;
    }

    method Lookup(r: Request, now: real) returns (found: Option<Entry>)
      requires backend.Valid()
      modifies backend
      ensures backend.Valid()
      ensures !enabled || r.noCache || (r.stream && skipStreaming) ==>
        found == None && backend.State() == old(backend.State())
      ensures enabled && !r.noCache && !(r.stream && skipStreaming) ==>
        (found, backend.State()) == Got(old(backend.State()), r.key, now)
    {
      if !enabled {
        return None;
      }
      if r.stream && skipStreaming {
        return None;
      }
      if r.noCache {
        return None;
      }
      found := backend.Get(r.key, now);
    }

    /** No time to live, or one of zero, means the default. */
    method Store(key: Key, data: int, ttl: Option<int>, now: real)
      requires backend.Valid()
      modifies backend
      ensures backend.Valid()
      ensures backend.State() ==
        if !enabled then old(backend.State())
        else Put(backend.maxSize, old(backend.State()), key,
          Entry(data, now, if ttl.None? || ttl.value == 0 then Some(defaultTtl) else ttl))
    {
      if !enabled {
        return;
      }
      var t := if ttl.Some? && ttl.value != 0 then ttl.value else defaultTtl;
      backend.Set(key, Entry(data, now, Some(t)), Some(t), now);
    }

    /** The step of the cache runs that one request amounts to.  It is asked at one time and answered
        at a later one; `answer` is what the provider replied once it has passed the guardrails,
        nothing if the provider failed or the guardrails blocked it. */
    function StepOf(key: Key, answer: Option<int>, asked: real, answered: real): Op {
      match answer
      case Some(data) => Serve(key, Entry(data, answered, Some(defaultTtl)), asked)
      case None => Look(key, asked)
    }

    /** One request of the completion route, with no other request in between: with the cache enabled
        it is a `Serve` step, or a `Look` step when there is nothing to store; a hit is answered from
        the cache, whatever the provider would have said. */
    method Complete(key: Key, answer: Option<int>, asked: real, answered: real) returns (data: Option<int>)
      requires backend.Valid()
      modifies backend
      ensures backend.Valid()
      ensures backend.State() ==
        if enabled then Next(backend.maxSize, old(backend.State()), StepOf(key, answer, asked, answered))
        else old(backend.State())
      ensures data ==
        if enabled && Hits(old(backend.State()), StepOf(key, answer, asked, answered))
        then Some(old(backend.State()).entries[key].data) else answer
    {
      var found := Lookup(Request(key, false, false), asked);
      if found.Some? {
        return Some(found.value.data);
      }
      if answer.Some? {
        Store(key, answer.value, None, answered);
      }
      return answer;
    }
  }
}

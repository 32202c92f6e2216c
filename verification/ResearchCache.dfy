/** Fetch-through cache with bounded retry, src/dev/breadth-research-cache.ts. */
module ResearchCache {
  import opened Wrappers

  datatype Kind = UNIVERSE | GROUPED
  datatype Key = Key(kind: Kind, date: int)

  /** What attempt `n` of the fetcher yields. */
  type Fetcher<T> = nat -> Result<T, string>

  /** The first success among attempts `0..retries`, otherwise the last error; nothing is tried below zero. */
  function Attempts<T>(fetcher: Fetcher<T>, retries: int): Result<T, string> {
    if retries < 0 then Failure("")
    else
      var before := Attempts(fetcher, retries - 1);
      if before.Success? then before else fetcher(retries)
  }

  function Calls<T>(fetcher: Fetcher<T>, retries: int): nat {
    if retries < 0 then 0
    else Calls(fetcher, retries - 1) + if Attempts(fetcher, retries - 1).Success? then 0 else 1
  }

  /** A value comes from the earliest attempt that succeeds; a failure means that all of them failed. */
  lemma {:induction false} AttemptsMeaning<T>(fetcher: Fetcher<T>, retries: int)
    requires retries >= 0
    ensures var r := Attempts(fetcher, retries);
            if r.Success?
            then exists a: nat :: a <= retries && fetcher(a) == r && Calls(fetcher, retries) == a + 1
                                  && forall b: nat | b < a :: fetcher(b).Failure?
            else r == fetcher(retries) && Calls(fetcher, retries) == retries + 1
                 && forall b: nat | b <= retries :: fetcher(b).Failure?
  {
    if retries == 0 {
      assert Attempts(fetcher, -1).Failure? && Calls(fetcher, -1) == 0;
    } else {
      AttemptsMeaning(fetcher, retries - 1);
    }
  }

  class Cache<T> {
    var files: map<Key, Result<T, string>>

    /** Successes and failures are both kept, so a resumed run does not ask again. */
    method CachedFetch(key: Key, fetcher: Fetcher<T>, refresh: bool, retries: int)
      returns (r: Result<T, string>, fromCache: bool, calls: nat)
      modifies this
      ensures fromCache <==> !refresh && key in old(files)
      ensures fromCache ==> r == old(files)[key] && files == old(files) && calls == 0
      ensures !fromCache ==> r == Attempts(fetcher, retries) && files == old(files)[key := r]
                             && calls == Calls(fetcher, retries)
    {
      if !refresh && key in files {
        return files[key], true, 0;
      }
      fromCache, calls := false, 0;
      var lastError := "";
      var attempt := 0;
      while attempt <= retries
        invariant 0 <= attempt && (retries >= 0 ==> attempt <= retries + 1) && (retries < 0 ==> attempt == 0)
        invariant Attempts(fetcher, attempt - 1) == Failure(lastError)
        invariant calls == Calls(fetcher, attempt - 1) && files == old(files)
      {
        calls := calls + 1;
        var value := fetcher(attempt);
        if value.Success? {
          EarlierSuccess(fetcher, attempt, retries);
          files := files[key := value];
          return value, false, calls;
        }
        lastError := value.error;
        attempt := attempt + 1;
      }
      if retries < 0 {
        assert Attempts(fetcher, retries) == Attempts(fetcher, -1);
      }
      r := Failure(lastError);
      files := files[key := r];
    }

    /** Resuming: the second run of the same request reads the first one's answer and calls nothing. */
    method Resume(key: Key, fetcher: Fetcher<T>, later: Fetcher<T>, retries: int)
      returns (first: Result<T, string>, second: Result<T, string>, calls: nat)
      modifies this
      ensures second == first && calls == 0 && key in files && files[key] == first
      ensures forall k | k != key :: (k in files <==> k in old(files)) && (k in files ==> files[k] == old(files)[k])
    {
      var fromCache;
      first, fromCache, calls := CachedFetch(key, fetcher, false, retries);
      second, fromCache, calls := CachedFetch(key, later, false, retries);
    }
  }

  lemma {:induction false} EarlierSuccess<T>(fetcher: Fetcher<T>, a: nat, retries: int)
    requires a <= retries && Attempts(fetcher, a - 1).Failure? && fetcher(a).Success?
    ensures Attempts(fetcher, retries) == fetcher(a) && Calls(fetcher, retries) == Calls(fetcher, a - 1) + 1
    decreases retries
  {
    if a < retries {
      EarlierSuccess(fetcher, a, retries - 1);
    }
  }
}

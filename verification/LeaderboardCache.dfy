/** The leaderboard cache, keyed by competition and category, and its invalidation by key prefix
    (internal/handler/comp_leaderboard.go). */
module LeaderboardCache {
  import opened Wrappers

  /** The board itself is opaque here. */
  type Board = string

  datatype Cached = Cached(payload: Board, expiresAt: int)

  const TTL_SECONDS := 2

  function Key(comp: string, category: string): string {
    comp + "|" + category
  }

  predicate BarFree(id: string) {
    '|' !in id
  }

  /** The position of the first bar, or the length if there is none. */
  function FirstBar(s: string): nat {
    if s == "" || s[0] == '|' then 0 else 1 + FirstBar(s[1..])
  }

  lemma {:induction false} FirstBarOfKey(id: string, rest: string)
    requires BarFree(id)
    ensures FirstBar(id + "|" + rest) == |id|
  {
    if id != "" {
      assert id[0] in id;
      assert (id + "|" + rest)[1..] == id[1..] + "|" + rest;
      FirstBarOfKey(id[1..], rest);
    }
  }

  /** With ids that contain no bar, a key starts with one competition's prefix only if it is one of its
      keys. */
  lemma {:induction false} PrefixIdentifies(comp: string, other: string, category: string)
    requires BarFree(comp) && BarFree(other)
    ensures comp + "|" <= Key(other, category) <==> other == comp
  {
    var key := Key(other, category);
    if comp + "|" <= key {
      FirstBarOfKey(other, category);
      assert key == comp + "|" + key[|comp| + 1..];
      FirstBarOfKey(comp, key[|comp| + 1..]);
      assert comp == key[..|comp|] && other == key[..|other|];
    } else {
      assert Key(comp, category)[..|comp| + 1] == comp + "|";
    }
  }

  lemma {:induction false} KeysDistinct(comp: string, category: string, other: string, category': string)
    requires BarFree(comp) && BarFree(other) && Key(comp, category) == Key(other, category')
    ensures comp == other && category == category'
  {
    assert comp + "|" <= Key(comp, category);
    PrefixIdentifies(comp, other, category');
    assert Key(comp, category)[|comp| + 1..] == category;
    assert Key(other, category')[|other| + 1..] == category';
  }

  /** What an invalidation leaves. */
  function Remaining(entries: map<string, Cached>, comp: string): map<string, Cached> {
    map k | k in entries && !(comp + "|" <= k) :: entries[k]
  }

  /** Why ids must hold no bar (the handlers admit UUIDs only): invalidating a competition would also drop
      every board of a competition whose id goes on after a bar. */
  lemma {:induction false} BarsConfuse(comp: string, rest: string, category: string, board: Cached)
    ensures Remaining(map[Key(comp + "|" + rest, category) := board], comp) == map[]
  {
    var key := Key(comp + "|" + rest, category);
    assert key == comp + "|" + (rest + "|" + category);
  }

  class Cache {
    var entries: map<string, Cached>

    /** Every key was built from ids without a bar. */
    ghost predicate Valid()
      reads this
    {
      forall k :: k in entries ==> exists comp, category :: BarFree(comp) && k == Key(comp, category)
    }

    constructor ()
      ensures Valid() && entries == map[]
    {
      entries := map[];
    }

    function Get(comp: string, category: string, now: int): Option<Board>
      reads this
    {
      var k := Key(comp, category);
      if k in entries && now <= entries[k].expiresAt then Some(entries[k].payload) else None
    }

    method Put(comp: string, category: string, payload: Board, now: int)
      requires Valid() && BarFree(comp)
      modifies this
      ensures Valid()
      ensures forall t :: t <= now + TTL_SECONDS ==> Get(comp, category, t) == Some(payload)
      ensures forall t :: t > now + TTL_SECONDS ==> Get(comp, category, t) == None
      ensures forall other, cat, t :: BarFree(other) && (other != comp || cat != category) ==>
                Get(other, cat, t) == old(Get(other, cat, t))
    {
      var k := Key(comp, category);
      forall other, cat | BarFree(other) && Key(other, cat) == k ensures other == comp && cat == category {
        KeysDistinct(other, cat, comp, category);
      }
      entries := entries[k := Cached(payload, now + TTL_SECONDS)];
    }

    /** Afterwards no board of the competition is cached, and every other competition's boards are
        exactly as before. */
    method Invalidate(comp: string)
      requires Valid() && BarFree(comp)
      modifies this
      ensures Valid() && entries == Remaining(old(entries), comp)
      ensures forall category, t :: Get(comp, category, t) == None
      ensures forall other, category, t :: BarFree(other) && other != comp ==>
                Get(other, category, t) == old(Get(other, category, t))
    {
      var prefix := comp + "|";
      var todo := entries.Keys;
      while todo != {}
        invariant todo <= old(entries).Keys
        invariant entries == map k | k in old(entries) && (k in todo || !(prefix <= k)) :: old(entries)[k]
        decreases |todo|
      {
        var k :| k in todo;
        todo := todo - {k};
        if prefix <= k {
          entries := entries - {k};
        }
      }
      forall category ensures Key(comp, category) !in entries {
        PrefixIdentifies(comp, comp, category);
      }
      forall other, category | BarFree(other) && other != comp ensures !(prefix <= Key(other, category)) {
        PrefixIdentifies(comp, other, category);
      }
    }
  }
}

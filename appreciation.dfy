/**
 * Daily appreciations: per guild, each user's appreciation of the day (a
 * dict kept in insertion order), cleaned of entries not dated today; per guild
 * and user, a duplicate-free list of saved appreciations; a view that cycles
 * through today's appreciations without repeats; and a pager over the saved
 * list with a two-press "Forget".
 */
module Appreciation {
  import opened Wrappers

  type GuildId = string
  type UserId = string
  /** An ISO date `YYYY-MM-DD`, compared as text. */
  type IsoDate = string

  /** A stored `{date, appreciation}` record. */
  datatype Entry = Entry(date: IsoDate, appreciation: string)

  /** A guild's `{user_id: entry}` dict, in insertion order, as (key, value) pairs. */
  type GuildDict = seq<(UserId, Entry)>

  ghost predicate UniqueKeys(d: GuildDict) {
    forall i, j :: 0 <= i < j < |d| ==> d[i].0 != d[j].0
  }

  ghost predicate NoDuplicates(s: seq<string>) {
    forall i, j :: 0 <= i < j < |s| ==> s[i] != s[j]
  }

  /* ---------------------------------------------------------------------- */
  /* The ordered dict                                                         */
  /* ---------------------------------------------------------------------- */

  /** `d.get(k)`. */
  function Get(d: GuildDict, k: UserId): (r: Option<Entry>)
    ensures r.None? <==> forall i :: 0 <= i < |d| ==> d[i].0 != k
    ensures r.Some? ==> (k, r.value) in d
  {
    if d == [] then None
    else if d[0].0 == k then Some(d[0].1)
    else Get(d[1..], k)
  }

  /** With unique keys, a stored pair is what the lookup finds. */
  lemma {:induction false} GetFinds(d: GuildDict, k: UserId, e: Entry)
    requires UniqueKeys(d) && (k, e) in d
    ensures Get(d, k) == Some(e)
  {
    if d[0] != (k, e) {
      assert d[0].0 != k by {
        var j :| 0 <= j < |d| && d[j] == (k, e);
      }
      GetFinds(d[1..], k, e);
    }
  }

  /**
   * `d[k] = v`: a present key keeps its place and takes the new value, an
   * absent key is added at the end; every other key keeps its value.
   */
  function Put(d: GuildDict, k: UserId, v: Entry): (r: GuildDict)
    ensures Get(r, k) == Some(v)
    ensures forall k' :: k' != k ==> Get(r, k') == Get(d, k')
    ensures |r| == if Get(d, k).Some? then |d| else |d| + 1
    ensures forall i :: 0 <= i < |d| ==> r[i].0 == d[i].0
  {
    if d == [] then [(k, v)]
    else if d[0].0 == k then [(k, v)] + d[1..]
    else [d[0]] + Put(d[1..], k, v)
  }

  /** Assigning a key keeps the keys unique. */
  lemma {:induction false} PutKeepsUniqueKeys(d: GuildDict, k: UserId, v: Entry)
    requires UniqueKeys(d)
    ensures UniqueKeys(Put(d, k, v))
  {
    if d != [] && d[0].0 != k {
      var rest := Put(d[1..], k, v);
      PutKeepsUniqueKeys(d[1..], k, v);
      assert forall i :: 0 <= i < |rest| ==> rest[i].0 != d[0].0 by {
        forall i | 0 <= i < |rest|
          ensures rest[i].0 != d[0].0
        {
          if i < |d[1..]| {
            assert rest[i].0 == d[1..][i].0 == d[i + 1].0;
          } else {
            assert Get(d[1..], k).None?;
            assert rest[i].0 == k;
          }
        }
      }
    }
  }

  /** The comprehension `{k: v for k, v in d.items() if v["date"] == today}`. */
  function KeepDated(d: GuildDict, today: IsoDate): (r: GuildDict)
    ensures |r| <= |d|
    ensures forall p :: p in r <==> p in d && p.1.date == today
    ensures UniqueKeys(d) ==> UniqueKeys(r)
  {
    if d == [] then []
    else
      var rest := KeepDated(d[1..], today);
      assert forall p :: p in d <==> p == d[0] || p in d[1..];
      if d[0].1.date == today then
        assert UniqueKeys(d) ==> forall p :: p in rest ==> p.0 != d[0].0;
        [d[0]] + rest
      else rest
  }

  /** The entries dated today are exactly the ones that survive cleaning. */
  lemma KeepDatedLookup(d: GuildDict, today: IsoDate, k: UserId)
    requires UniqueKeys(d)
    ensures Get(KeepDated(d, today), k) ==
              if Get(d, k).Some? && Get(d, k).value.date == today then Get(d, k) else None
  {
    var r := KeepDated(d, today);
    var g := Get(r, k);
    if g.Some? {
      GetFinds(d, k, g.value);
    }
  }

  /** Cleaning twice is cleaning once. */
  lemma {:induction false} KeepDatedIdempotent(d: GuildDict, today: IsoDate)
    ensures KeepDated(KeepDated(d, today), today) == KeepDated(d, today)
  {
    if d != [] {
      KeepDatedIdempotent(d[1..], today);
      if d[0].1.date == today {
        assert ([d[0]] + KeepDated(d[1..], today))[1..] == KeepDated(d[1..], today);
      }
    }
  }

  /** `[v["appreciation"] for v in d.values() if v["date"] == today]`. */
  function TodayValues(d: GuildDict, today: IsoDate): (r: seq<string>)
    ensures |r| <= |d|
    ensures forall x :: x in r <==> exists p :: p in d && p.1 == Entry(today, x)
  {
    if d == [] then []
    else
      var rest := TodayValues(d[1..], today);
      assert forall p :: p in d <==> p == d[0] || p in d[1..];
      (if d[0].1.date == today then [d[0].1.appreciation] else []) + rest
  }

  /** Today's list is the same before and after cleaning. */
  lemma {:induction false} TodayValuesAfterClean(d: GuildDict, today: IsoDate)
    ensures TodayValues(KeepDated(d, today), today) == TodayValues(d, today)
  {
    if d != [] {
      TodayValuesAfterClean(d[1..], today);
      if d[0].1.date == today {
        assert ([d[0]] + KeepDated(d[1..], today))[1..] == KeepDated(d[1..], today);
      }
    }
  }

  /* ---------------------------------------------------------------------- */
  /* The stores                                                               */
  /* ---------------------------------------------------------------------- */

  type DailyStore = map<GuildId, GuildDict>
  type SavedStore = map<GuildId, map<UserId, seq<string>>>

  ghost predicate WellFormed(s: DailyStore) {
    forall g :: g in s ==> UniqueKeys(s[g])
  }

  /**
   * `clean_old_appreciations`: every guild keeps its key and exactly its
   * entries dated today.
   */
  function Cleaned(s: DailyStore, today: IsoDate): (r: DailyStore)
    ensures r.Keys == s.Keys
    ensures forall g, p :: g in r && p in r[g] ==> p.1.date == today
    ensures forall g, p :: g in s && p in s[g] && p.1.date == today ==> p in r[g]
    ensures WellFormed(s) ==> WellFormed(r)
  {
    map g | g in s :: KeepDated(s[g], today)
  }

  lemma CleanedIdempotent(s: DailyStore, today: IsoDate)
    ensures Cleaned(Cleaned(s, today), today) == Cleaned(s, today)
  {
    forall g | g in s {
      KeepDatedIdempotent(s[g], today);
    }
  }

  /** The user already has an entry for today in that guild. */
  predicate SharedToday(s: DailyStore, g: GuildId, u: UserId, today: IsoDate) {
    g in s && Get(s[g], u).Some? && Get(s[g], u).value.date == today
  }

  /**
   * Cleaning does not change whether the user shared today, and after cleaning
   * having an entry at all already means having one for today.
   */
  lemma CleanPreservesSharedToday(s: DailyStore, g: GuildId, u: UserId, today: IsoDate)
    requires WellFormed(s)
    ensures SharedToday(Cleaned(s, today), g, u, today) <==> SharedToday(s, g, u, today)
    ensures SharedToday(Cleaned(s, today), g, u, today) <==>
              g in s && Get(Cleaned(s, today)[g], u).Some?
  {
    if g in s {
      KeepDatedLookup(s[g], today, u);
    }
  }

  function SavedOf(s: SavedStore, g: GuildId, u: UserId): seq<string> {
    if g in s && u in s[g] then s[g][u] else []
  }

  /** The saved store with `u`'s list in `g` replaced, creating both levels if absent. */
  function WithSaved(s: SavedStore, g: GuildId, u: UserId, l: seq<string>): SavedStore {
    s[g := (if g in s then s[g] else map[])[u := l]]
  }

  ghost predicate SavedWellFormed(s: SavedStore) {
    forall g, u :: g in s && u in s[g] ==> NoDuplicates(s[g][u])
  }

  /** "Save": append the appreciation unless the list already holds it. */
  function SaveItem(l: seq<string>, x: string): (r: seq<string>)
    ensures x in r
    ensures |l| <= |r| <= |l| + 1 && r[..|l|] == l
    ensures NoDuplicates(l) ==> NoDuplicates(r)
    ensures forall y :: y in r <==> y in l || y == x
  {
    if x in l then l else l + [x]
  }

  /** Once an appreciation is saved, the user's saved list is non-empty, so the pager opens. */
  lemma SaveOpensPager(s: SavedStore, g: GuildId, u: UserId, x: string)
    ensures x in SavedOf(WithSaved(s, g, u, SaveItem(SavedOf(s, g, u), x)), g, u)
  {
  }

  /** Saving the same appreciation twice is saving it once. */
  lemma SaveItemIdempotent(l: seq<string>, x: string)
    ensures SaveItem(SaveItem(l, x), x) == SaveItem(l, x)
  {
  }

  /** `l.pop(i)` leaves this list. */
  function RemoveAt(l: seq<string>, i: nat): (r: seq<string>)
    requires i < |l|
    ensures |r| == |l| - 1
    ensures multiset(r) + multiset{l[i]} == multiset(l)
    ensures NoDuplicates(l) ==> NoDuplicates(r)
    ensures NoDuplicates(l) ==> forall y :: y in r <==> y in l && y != l[i]
    ensures forall j :: 0 <= j < |r| ==> r[j] == if j < i then l[j] else l[j + 1]
  {
    assert l == l[..i] + [l[i]] + l[i + 1..];
    l[..i] + l[i + 1..]
  }

  /* ---------------------------------------------------------------------- */
  /* Paging                                                                   */
  /* ---------------------------------------------------------------------- */

  /** The page before `i` in a list of `n`, wrapping around (Python's `%` is Dafny's for n > 0). */
  function PrevIndex(i: int, n: int): (r: int)
    requires n > 0
    ensures 0 <= r < n
    ensures 0 < i <= n ==> r == i - 1
    ensures i == 0 ==> r == n - 1
  {
    (i - 1) % n
  }

  /** The page after `i`, wrapping around. */
  function NextIndex(i: int, n: int): (r: int)
    requires n > 0
    ensures 0 <= r < n
    ensures -1 <= i < n - 1 ==> r == i + 1
    ensures i == n - 1 ==> r == 0
  {
    (i + 1) % n
  }

  /** "Previous" undoes "Next" and "Next" undoes "Previous". */
  lemma PrevNextInverse(i: int, n: int)
    requires 0 <= i < n
    ensures PrevIndex(NextIndex(i, n), n) == i
    ensures NextIndex(PrevIndex(i, n), n) == i
  {
  }

  /** `[a for a in appreciations if a not in shown]`. */
  function Remaining(l: seq<string>, shown: set<string>): (r: seq<string>)
    ensures |r| <= |l|
    ensures forall x :: x in r <==> x in l && x !in shown
  {
    if l == [] then []
    else (if l[0] in shown then [] else [l[0]]) + Remaining(l[1..], shown)
  }

  /* ---------------------------------------------------------------------- */
  /* The cog and its views                                                    */
  /* ---------------------------------------------------------------------- */

  datatype AppreciateReply =
    | OfferOptions   // "You've already shared an appreciation today": edit or come back tomorrow
    | OpenModal      // a fresh submission form

  datatype ShowReply =
    | NothingShared               // the guild has no dict at all
    | NothingToday                // the guild's dict has no entry dated today
    | Show(items: seq<string>, pick: string)

  class AppreciationCog {
    var appreciations: DailyStore
    var saved: SavedStore

    ghost predicate Valid()
      reads this
    {
      WellFormed(appreciations) && SavedWellFormed(saved)
    }

    /** Missing files give empty stores. */
    constructor ()
      ensures Valid() && appreciations == map[] && saved == map[]
    {
      appreciations := map[];
      saved := map[];
    }

    method CleanOldAppreciations(today: IsoDate)
      requires Valid()
      modifies this
      ensures Valid()
      ensures appreciations == Cleaned(old(appreciations), today)
      ensures saved == old(saved)
    {
      var pending := appreciations.Keys;
      while pending != {}
        invariant pending <= appreciations.Keys
        invariant appreciations.Keys == old(appreciations).Keys
        invariant forall g :: g in appreciations && g !in pending ==>
                    appreciations[g] == KeepDated(old(appreciations)[g], today)
        invariant forall g :: g in pending ==> appreciations[g] == old(appreciations)[g]
        invariant saved == old(saved)
        decreases pending
      {
        var g :| g in pending;
        appreciations := appreciations[g := KeepDated(appreciations[g], today)];
        pending := pending - {g};
      }
      assert appreciations == Cleaned(old(appreciations), today);
    }

    /** `/appreciate`: clean, make sure the guild has a dict, then choose the path. */
    method Appreciate(guild: GuildId, user: UserId, today: IsoDate) returns (reply: AppreciateReply)
      requires Valid()
      modifies this
      ensures Valid()
      ensures reply == OfferOptions <==> SharedToday(old(appreciations), guild, user, today)
      ensures var c := Cleaned(old(appreciations), today);
              appreciations == if guild in c then c else c[guild := []]
      ensures saved == old(saved)
    {
      CleanOldAppreciations(today);
      CleanPreservesSharedToday(old(appreciations), guild, user, today);
      if guild !in appreciations {
        appreciations := appreciations[guild := []];
      }
      var entry := Get(appreciations[guild], user);
      if entry.Some? && entry.value.date == today {
        reply := OfferOptions;
      } else {
        reply := OpenModal;
      }
    }

    /** Submitting the form: the user's entry in the guild becomes today's text. */
    method Submit(guild: GuildId, user: UserId, text: string, today: IsoDate)
      requires Valid()
      modifies this
      ensures Valid()
      ensures appreciations == old(appreciations)[guild :=
                Put(if guild in old(appreciations) then old(appreciations)[guild] else [], user, Entry(today, text))]
      ensures saved == old(saved)
    {
      if guild !in appreciations {
        appreciations := appreciations[guild := []];
      }
      PutKeepsUniqueKeys(appreciations[guild], user, Entry(today, text));
      appreciations := appreciations[guild := Put(appreciations[guild], user, Entry(today, text))];
    }

    /** `/show_appreciations` and its button: clean, then pick one of today's. */
    method ShowToday(guild: GuildId, today: IsoDate) returns (reply: ShowReply)
      requires Valid()
      modifies this
      ensures Valid()
      ensures appreciations == Cleaned(old(appreciations), today) && saved == old(saved)
      ensures reply == NothingShared <==> guild !in old(appreciations)
      ensures reply.NothingToday? <==> guild in old(appreciations) && TodayValues(old(appreciations)[guild], today) == []
      ensures reply.Show? ==> reply.items == TodayValues(old(appreciations)[guild], today) && reply.pick in reply.items
    {
      CleanOldAppreciations(today);
      if guild !in appreciations {
        return NothingShared;
      }
      TodayValuesAfterClean(old(appreciations)[guild], today);
      var items := TodayValues(appreciations[guild], today);
      if items == [] {
        return NothingToday;
      }
      var pick :| pick in items;
      reply := Show(items, pick);
    }

    /** `/saved_appreciations` opens the pager only over a non-empty list. */
    predicate HasSaved(guild: GuildId, user: UserId)
      reads this
    {
      SavedOf(saved, guild, user) != []
    }
  }

  /** The view over today's appreciations, with "Save" and "Next". */
  class AppreciationView {
    const cog: AppreciationCog
    const guild: GuildId
    const user: UserId
    const appreciations: seq<string>
    var current: string
    var shown: set<string>

    /** The current appreciation has been shown, and only listed ones have. */
    ghost predicate Valid()
      reads this
    {
      current in appreciations && current in shown && forall a :: a in shown ==> a in appreciations
    }

    constructor (cog: AppreciationCog, guild: GuildId, user: UserId, appreciations: seq<string>, current: string)
      requires current in appreciations
      ensures Valid()
      ensures this.cog == cog && this.guild == guild && this.user == user
      ensures this.appreciations == appreciations && this.current == current && shown == {current}
    {
      this.cog := cog;
      this.guild := guild;
      this.user := user;
      this.appreciations := appreciations;
      this.current := current;
      shown := {current};
    }

    /** "Save": add the current appreciation to the user's saved list unless it is there. */
    method Save() returns (added: bool)
      requires cog.Valid()
      modifies cog
      ensures cog.Valid()
      ensures added <==> current !in SavedOf(old(cog.saved), guild, user)
      ensures cog.saved == WithSaved(old(cog.saved), guild, user, SaveItem(SavedOf(old(cog.saved), guild, user), current))
      ensures cog.appreciations == old(cog.appreciations)
    {
      if guild !in cog.saved {
        cog.saved := cog.saved[guild := map[]];
      }
      if user !in cog.saved[guild] {
        cog.saved := cog.saved[guild := cog.saved[guild][user := []]];
      }
      var list := cog.saved[guild][user];
      assert list == SavedOf(old(cog.saved), guild, user);
      ghost var inner := if guild in old(cog.saved) then old(cog.saved)[guild] else map[];
      assert cog.saved[guild] == inner[user := list];
      assert cog.saved == old(cog.saved)[guild := inner[user := list]];
      added := current !in list;
      if added {
        cog.saved := cog.saved[guild := cog.saved[guild][user := list + [current]]];
        assert cog.saved[guild] == inner[user := list + [current]];
      }
      assert cog.saved == WithSaved(old(cog.saved), guild, user, SaveItem(list, current));
    }

    /** "Next": one not yet shown, or, once all have been, any after starting over. */
    method Next()
      requires Valid()
      modifies this
      ensures Valid()
      ensures var unseen := Remaining(appreciations, old(shown));
              if unseen != [] then current in unseen && current !in old(shown) && shown == old(shown) + {current}
              else current in appreciations && shown == {current}
    {
      var remaining := Remaining(appreciations, shown);
      if remaining == [] {
        shown := {};
        remaining := appreciations;
      }
      assert remaining[0] in remaining;
      var pick :| pick in remaining;
      current := pick;
      shown := shown + {current};
    }
  }

  datatype ForgetOutcome =
    | AskedToConfirm          // first press: "Are you sure?"
    | Forgotten(item: string) // second press: that appreciation was popped
    | Failed                  // the index is past the end: `pop` raises IndexError

  /**
   * The pager over a user's saved appreciations. Its list is the very list the
   * cog stores (the source hands the view that list object), so it is read
   * through the cog.
   */
  class SavedAppreciationView {
    const cog: AppreciationCog
    const guild: GuildId
    const user: UserId
    var currentIndex: nat
    var confirmingForget: bool

    function SavedList(): seq<string>
      reads this, cog
    {
      SavedOf(cog.saved, guild, user)
    }

    constructor (cog: AppreciationCog, guild: GuildId, user: UserId)
      requires cog.HasSaved(guild, user)
      ensures this.cog == cog && this.guild == guild && this.user == user
      ensures currentIndex == 0 && !confirmingForget
      ensures SavedList() != [] && currentIndex < |SavedList()|
    {
      this.cog := cog;
      this.guild := guild;
      this.user := user;
      currentIndex := 0;
      confirmingForget := false;
    }

    /** "Previous": an empty list divides by zero and nothing changes. */
    method Previous() returns (page: Option<string>)
      modifies this
      ensures page.Some? <==> SavedList() != []
      ensures SavedList() == [] ==> currentIndex == old(currentIndex) && confirmingForget == old(confirmingForget)
      ensures SavedList() != [] ==>
                && currentIndex == PrevIndex(old(currentIndex), |SavedList()|)
                && page == Some(SavedList()[currentIndex])
                && !confirmingForget
    {
      var list := SavedList();
      if list == [] {
        return None;
      }
      currentIndex := (currentIndex - 1) % |list|;
      confirmingForget := false;
      page := Some(list[currentIndex]);
    }

    /** "Next". */
    method Next() returns (page: Option<string>)
      modifies this
      ensures page.Some? <==> SavedList() != []
      ensures SavedList() == [] ==> currentIndex == old(currentIndex) && confirmingForget == old(confirmingForget)
      ensures SavedList() != [] ==>
                && currentIndex == NextIndex(old(currentIndex), |SavedList()|)
                && page == Some(SavedList()[currentIndex])
                && !confirmingForget
    {
      var list := SavedList();
      if list == [] {
        return None;
      }
      currentIndex := (currentIndex + 1) % |list|;
      confirmingForget := false;
      page := Some(list[currentIndex]);
    }

    /**
     * "Forget": the first press only asks for confirmation; the second pops
     * the current appreciation, keeps the index on the list, and clears the flag.
     */
    method Forget() returns (outcome: ForgetOutcome)
      requires cog.Valid()
      modifies this, cog
      ensures cog.Valid()
      ensures cog.appreciations == old(cog.appreciations)
      ensures !old(confirmingForget) ==>
                && outcome == AskedToConfirm && confirmingForget
                && currentIndex == old(currentIndex) && cog.saved == old(cog.saved)
      ensures old(confirmingForget) && old(currentIndex) >= |old(SavedList())| ==>
                && outcome == Failed && confirmingForget
                && currentIndex == old(currentIndex) && cog.saved == old(cog.saved)
      ensures old(confirmingForget) && old(currentIndex) < |old(SavedList())| ==>
                && outcome == Forgotten(old(SavedList())[old(currentIndex)])
                && cog.saved == WithSaved(old(cog.saved), guild, user, RemoveAt(old(SavedList()), old(currentIndex)))
                && SavedList() == RemoveAt(old(SavedList()), old(currentIndex))
                && (SavedList() != [] ==> currentIndex == Min(old(currentIndex), |SavedList()| - 1) < |SavedList()|)
                && (SavedList() == [] ==> currentIndex == old(currentIndex))
                && !confirmingForget
    {
      if !confirmingForget {
        confirmingForget := true;
        return AskedToConfirm;
      }
      var list := SavedList();
      if currentIndex >= |list| {
        return Failed;
      }
      var removed := list[currentIndex];
      var rest := RemoveAt(list, currentIndex);
      cog.saved := WithSaved(cog.saved, guild, user, rest);
      if rest != [] {
        currentIndex := Min(currentIndex, |rest| - 1);
      }
      confirmingForget := false;
      outcome := Forgotten(removed);
    }
  }

  function Min(a: int, b: int): int {
    if a <= b then a else b
  }
}

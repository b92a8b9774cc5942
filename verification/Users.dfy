/** User accounts, points and referrals over the document store. */
module Users {
  import opened Wrappers
  import opened DocStore

  const WELCOME_POINTS := 100
  const REFERRER_POINTS := 50
  const REFEREE_POINTS := 25

  const USERS := "users"

  datatype User = User(displayName: string, bio: string, points: int, referredBy: Option<string>,
                       referralCount: int, termsAcceptedAt: Option<int>, createdAt: int)

  type Ledger = map<string, User>

  // ---- documents as accounts ----

  predicate IsUserDoc(d: Doc) {
    && Id in d && d[Id].Str?
    && DisplayName in d && d[DisplayName].Str?
    && Bio in d && d[Bio].Str?
    && Points in d && d[Points].Num?
    && ReferredBy in d && (d[ReferredBy].Null? || d[ReferredBy].Str?)
    && ReferralCount in d && d[ReferralCount].Num?
    && TermsAcceptedAt in d && (d[TermsAcceptedAt].Null? || d[TermsAcceptedAt].Num?)
    && CreatedAt in d && d[CreatedAt].Num?
  }

  function AsUser(d: Doc): User
    requires IsUserDoc(d)
  {
    User(d[DisplayName].s, d[Bio].s, d[Points].n,
         if d[ReferredBy].Null? then None else Some(d[ReferredBy].s),
         d[ReferralCount].n,
         if d[TermsAcceptedAt].Null? then None else Some(d[TermsAcceptedAt].n),
         d[CreatedAt].n)
  }

  predicate AllUsers(docs: map<string, Doc>) {
    forall a :: a in docs ==> IsUserDoc(docs[a]) && docs[a][Id] == Str(a)
  }

  function AsUsers(docs: map<string, Doc>): Ledger
    requires AllUsers(docs)
  {
    map a | a in docs :: AsUser(docs[a])
  }

  predicate Valid(rows: Rows) {
    AllUsers(Collection(rows, USERS))
  }

  function LedgerOf(rows: Rows): Ledger
    requires Valid(rows)
  {
    AsUsers(Collection(rows, USERS))
  }

  lemma WriteUser(rows: Rows, address: string, d: Doc)
    requires Valid(rows) && IsUserDoc(d) && d[Id] == Str(address)
    ensures Valid(rows[(USERS, address) := d])
    ensures LedgerOf(rows[(USERS, address) := d]) == LedgerOf(rows)[address := AsUser(d)]
    ensures Elsewhere(rows[(USERS, address) := d], USERS) == Elsewhere(rows, USERS)
  {
    CollectionAfterWrite(rows, USERS, address, d);
    WriteAsUsers(Collection(rows, USERS), address, d);
    OtherRowsStay(rows, address, d);
  }

  lemma WriteAsUsers(docs: map<string, Doc>, address: string, d: Doc)
    requires AllUsers(docs) && IsUserDoc(d) && d[Id] == Str(address)
    ensures AllUsers(docs[address := d]) && AsUsers(docs[address := d]) == AsUsers(docs)[address := AsUser(d)]
  {}

  lemma OtherRowsStay(rows: Rows, address: string, d: Doc)
    ensures Elsewhere(rows[(USERS, address) := d], USERS) == Elsewhere(rows, USERS)
  {}

  lemma LookupUser(rows: Rows, address: string)
    requires Valid(rows)
    ensures (USERS, address) in rows <==> address in LedgerOf(rows)
    ensures (USERS, address) in rows ==> LedgerOf(rows)[address] == AsUser(rows[(USERS, address)])
  {}

  // ---- specification: calls on a ledger ----

  datatype Profile = Profile(displayName: Option<string>, bio: Option<string>, acceptTerms: bool)

  datatype Call =
    | GetOrCreate(address: string, now: int)
    | UpdateProfile(address: string, patch: Profile, now: int)
    | ApplyReferral(address: string, referrer: string, now: int)

  function BlankUser(now: int): User {
    User("", "", 0, None, 0, None, now)
  }

  function Ensure(l: Ledger, address: string, now: int): Ledger {
    if address in l then l else l[address := BlankUser(now)]
  }

  /** JavaScript truthiness of the two optional fields. */
  predicate HasAccepted(u: User) {
    u.termsAcceptedAt.Some? && u.termsAcceptedAt.value != 0
  }

  predicate IsReferred(u: User) {
    u.referredBy.Some? && u.referredBy.value != ""
  }

  function Prefix(s: string, n: nat): string {
    if |s| <= n then s else s[..n]
  }

  function WithProfile(u: User, patch: Profile, now: int): User {
    var name := if patch.displayName.Some? then Prefix(patch.displayName.value, 40) else u.displayName;
    var named := u.(displayName := name,
                    bio := if patch.bio.Some? then Prefix(patch.bio.value, 280) else u.bio);
    if patch.acceptTerms && !HasAccepted(u)
    then named.(termsAcceptedAt := Some(now), points := u.points + WELCOME_POINTS)
    else named
  }

  function AsReferee(u: User, referrer: string): User {
    u.(referredBy := Some(referrer), points := u.points + REFEREE_POINTS)
  }

  function AsReferrer(u: User): User {
    u.(points := u.points + REFERRER_POINTS, referralCount := u.referralCount + 1)
  }

  function Refer(l: Ledger, referee: string, referrer: string): Ledger
    requires referee in l && referrer in l
  {
    l[referee := AsReferee(l[referee], referrer)][referrer := AsReferrer(l[referrer])]
  }

  /** The checks on the ledger once the referee's account exists. */
  function RefusalIn(l: Ledger, referee: string, referrer: string): Option<string>
    requires referee in l
  {
    if IsReferred(l[referee]) then Some("referral already set")
    else if referrer !in l then Some("unknown referrer")
    else None
  }

  function ReferralError(l: Ledger, referee: string, referrer: string, now: int): Option<string> {
    if referee == referrer then Some("cannot refer yourself")
    else RefusalIn(Ensure(l, referee, now), referee, referrer)
  }

  function Apply(l: Ledger, c: Call): Ledger {
    match c
    case GetOrCreate(a, now) => Ensure(l, a, now)
    case UpdateProfile(a, patch, now) =>
      var l1 := Ensure(l, a, now);
      l1[a := WithProfile(l1[a], patch, now)]
    case ApplyReferral(a, r, now) =>
      if a == r then l
      else if ReferralError(l, a, r, now).Some? then Ensure(l, a, now)
      else Refer(Ensure(l, a, now), a, r)
  }

  // ---- the exported operations ----

  method GetUser(db: Store, address: string) returns (u: Option<Doc>)
    requires Valid(db.rows)
    ensures u == Lookup(db.rows, USERS, address)
    ensures u.Some? <==> address in LedgerOf(db.rows)
    ensures u.Some? ==> IsUserDoc(u.value) && AsUser(u.value) == LedgerOf(db.rows)[address]
  {
    u := db.Get(USERS, address);
    LookupUser(db.rows, address);
  }

  method GetOrCreateUser(db: Store, address: string, now: int) returns (u: Doc)
    requires Valid(db.rows)
    modifies db
    ensures Valid(db.rows) && Elsewhere(db.rows, USERS) == Elsewhere(old(db.rows), USERS)
    ensures LedgerOf(db.rows) == Apply(LedgerOf(old(db.rows)), GetOrCreate(address, now))
    ensures (USERS, address) in db.rows && u == db.rows[(USERS, address)]
  {
    var existing := db.Get(USERS, address);
    LookupUser(db.rows, address);
    if existing.Some? {
      return existing.value;
    }
    u := map[Id := Str(address), DisplayName := Str(""), Bio := Str(""), Points := Num(0), ReferredBy := Null,
             ReferralCount := Num(0), TermsAcceptedAt := Null, CreatedAt := Num(now)];
    WriteUser(db.rows, address, u);
    db.Put(USERS, address, u);
  }

  /** The fields an update writes. */
  function ProfilePatch(u: Doc, patch: Profile, now: int): Doc
    requires IsUserDoc(u)
  {
    (if patch.displayName.Some? then map[DisplayName := Str(Prefix(patch.displayName.value, 40))] else map[])
    + (if patch.bio.Some? then map[Bio := Str(Prefix(patch.bio.value, 280))] else map[])
    + (if patch.acceptTerms && (u[TermsAcceptedAt].Null? || u[TermsAcceptedAt].n == 0)
       then map[TermsAcceptedAt := Num(now), Points := Num(u[Points].n + WELCOME_POINTS)] else map[])
  }

  lemma ProfilePatchMerges(u: Doc, address: string, patch: Profile, now: int)
    requires IsUserDoc(u)
    ensures var next := Merged(Some(u), address, ProfilePatch(u, patch, now));
            IsUserDoc(next) && next[Id] == Str(address) && AsUser(next) == WithProfile(AsUser(u), patch, now)
  {}

  method UpdateProfileOf(db: Store, address: string, patch: Profile, now: int) returns (next: Doc)
    requires Valid(db.rows)
    modifies db
    ensures Valid(db.rows) && Elsewhere(db.rows, USERS) == Elsewhere(old(db.rows), USERS)
    ensures LedgerOf(db.rows) == Apply(LedgerOf(old(db.rows)), UpdateProfile(address, patch, now))
    ensures Lookup(db.rows, USERS, address) == Some(next)
  {
    ProfileIsTwoSteps(LedgerOf(db.rows), address, patch, now);
    var u := GetOrCreateUser(db, address, now);
    LookupUser(db.rows, address);
    ProfilePatchMerges(u, address, patch, now);
    next := UpdateUser(db, address, u, ProfilePatch(u, patch, now));
  }

  lemma ProfileIsTwoSteps(l: Ledger, a: string, patch: Profile, now: int)
    ensures var l1 := Apply(l, GetOrCreate(a, now));
            a in l1 && Apply(l, UpdateProfile(a, patch, now)) == l1[a := WithProfile(l1[a], patch, now)]
  {}

  function RefereePatch(u: Doc, referrer: string): Doc
    requires IsUserDoc(u)
  {
    map[ReferredBy := Str(referrer), Points := Num(u[Points].n + REFEREE_POINTS)]
  }

  function ReferrerPatch(ref: Doc): Doc
    requires IsUserDoc(ref)
  {
    map[Points := Num(ref[Points].n + REFERRER_POINTS), ReferralCount := Num(ref[ReferralCount].n + 1)]
  }

  lemma ReferralPatchesMerge(u: Doc, address: string, referrer: string)
    requires IsUserDoc(u)
    ensures var next := Merged(Some(u), address, RefereePatch(u, referrer));
            IsUserDoc(next) && next[Id] == Str(address) && AsUser(next) == AsReferee(AsUser(u), referrer)
    ensures var next := Merged(Some(u), address, ReferrerPatch(u));
            IsUserDoc(next) && next[Id] == Str(address) && AsUser(next) == AsReferrer(AsUser(u))
  {}

  method ApplyReferralOf(db: Store, referee: string, referrer: string, now: int) returns (error: Option<string>)
    requires Valid(db.rows)
    modifies db
    ensures Valid(db.rows) && Elsewhere(db.rows, USERS) == Elsewhere(old(db.rows), USERS)
    ensures LedgerOf(db.rows) == Apply(LedgerOf(old(db.rows)), ApplyReferral(referee, referrer, now))
    ensures error == ReferralError(LedgerOf(old(db.rows)), referee, referrer, now)
  {
    if referee == referrer {
      return Some("cannot refer yourself");
    }
    ReferralIsTwoSteps(LedgerOf(db.rows), referee, referrer, now);
    var u := GetOrCreateUser(db, referee, now);
    error := ReferExisting(db, referee, u, referrer);
  }

  lemma ReferralIsTwoSteps(l: Ledger, a: string, r: string, now: int)
    requires a != r
    ensures var l1 := Apply(l, GetOrCreate(a, now));
            && a in l1
            && ReferralError(l, a, r, now) == RefusalIn(l1, a, r)
            && Apply(l, ApplyReferral(a, r, now)) == if RefusalIn(l1, a, r).None? then Refer(l1, a, r) else l1
  {}

  /** The rest of the call, from the referee's document as it was read. */
  method ReferExisting(db: Store, referee: string, u: Doc, referrer: string) returns (error: Option<string>)
    requires Valid(db.rows) && referee != referrer && Lookup(db.rows, USERS, referee) == Some(u)
    modifies db
    ensures Valid(db.rows) && Elsewhere(db.rows, USERS) == Elsewhere(old(db.rows), USERS)
    ensures var before := LedgerOf(old(db.rows));
            && referee in before
            && error == RefusalIn(before, referee, referrer)
            && LedgerOf(db.rows) == if error.None? then Refer(before, referee, referrer) else before
  {
    LookupUser(db.rows, referee);
    if u[ReferredBy].Str? && u[ReferredBy].s != "" {
      return Some("referral already set");
    }
    var ref := GetUser(db, referrer);
    LookupUser(db.rows, referrer);
    if ref.None? {
      return Some("unknown referrer");
    }
    RecordReferral(db, referee, u, referrer, ref.value);
    error := None;
  }

  /** The two merges of an accepted referral, from the two documents read before. */
  method RecordReferral(db: Store, referee: string, u: Doc, referrer: string, ref: Doc)
    requires Valid(db.rows) && referee != referrer
    requires Lookup(db.rows, USERS, referee) == Some(u) && Lookup(db.rows, USERS, referrer) == Some(ref)
    modifies db
    ensures Valid(db.rows) && Elsewhere(db.rows, USERS) == Elsewhere(old(db.rows), USERS)
    ensures var before := LedgerOf(old(db.rows));
            referee in before && referrer in before && LedgerOf(db.rows) == Refer(before, referee, referrer)
  {
    LookupUser(db.rows, referee);
    LookupUser(db.rows, referrer);
    ReferralPatchesMerge(u, referee, referrer);
    ReferralPatchesMerge(ref, referrer, referrer);
    var _ := UpdateUser(db, referee, u, RefereePatch(u, referrer));
    var _ := UpdateUser(db, referrer, ref, ReferrerPatch(ref));
  }

  /** Merge into an account's document as it was last read. */
  method UpdateUser(db: Store, address: string, ghost cur: Doc, patch: Doc) returns (next: Doc)
    requires Valid(db.rows) && Lookup(db.rows, USERS, address) == Some(cur)
    requires var next := Merged(Some(cur), address, patch); IsUserDoc(next) && next[Id] == Str(address)
    modifies db
    ensures next == Merged(Some(cur), address, patch)
    ensures db.rows == old(db.rows)[(USERS, address) := next]
    ensures Valid(db.rows) && Elsewhere(db.rows, USERS) == Elsewhere(old(db.rows), USERS)
    ensures LedgerOf(db.rows) == LedgerOf(old(db.rows))[address := AsUser(Merged(Some(cur), address, patch))]
  {
    WriteUser(db.rows, address, Merged(Some(cur), address, patch));
    next := db.Update(USERS, address, patch);
  }

  // ---- the points invariant ----

  function ReferredTo(l: Ledger, address: string): set<string> {
    set x | x in l && l[x].referredBy == Some(address)
  }

  function Accepted(l: Ledger): set<string> {
    set x | x in l && HasAccepted(l[x])
  }

  function Referred(l: Ledger): set<string> {
    set x | x in l && IsReferred(l[x])
  }

  function Bit(b: bool): int {
    if b then 1 else 0
  }

  predicate Balanced(l: Ledger, a: string)
    requires a in l
  {
    var u := l[a];
    && u.points == WELCOME_POINTS * Bit(HasAccepted(u)) + REFEREE_POINTS * Bit(IsReferred(u))
                   + REFERRER_POINTS * u.referralCount
    && u.referralCount == |ReferredTo(l, a)|
    && u.termsAcceptedAt != Some(0)
    && u.referredBy != Some(a)
    && (u.referredBy.Some? ==> u.referredBy.value in l)
  }

  ghost predicate AllBalanced(l: Ledger) {
    "" !in l && forall a :: a in l ==> Balanced(l, a)
  }

  ghost predicate Totalled(l: Ledger) {
    SumPoints(l) == WELCOME_POINTS * |Accepted(l)| + (REFERRER_POINTS + REFEREE_POINTS) * |Referred(l)|
  }

  ghost predicate Invariant(l: Ledger) {
    AllBalanced(l) && Totalled(l)
  }

  ghost function SumPoints(l: Ledger): int {
    if l == map[] then 0
    else
      var a :| a in l;
      l[a].points + SumPoints(l - {a})
  }

  lemma {:induction false} SumSplits(l: Ledger, a: string)
    requires a in l
    ensures SumPoints(l) == l[a].points + SumPoints(l - {a})
    decreases |l|
  {
    var b :| b in l && SumPoints(l) == l[b].points + SumPoints(l - {b});
    if b == a {
    } else {
      SumSplits(l - {b}, a);
      assert l - {b} - {a} == l - {a} - {b};
      SumSplits(l - {a}, b);
    }
  }

  /** Writing one account moves the sum by the change of its points. */
  lemma SumAfterWrite(l: Ledger, a: string, u: User)
    ensures SumPoints(l[a := u]) == SumPoints(l) + u.points - (if a in l then l[a].points else 0)
  {
    SumSplits(l[a := u], a);
    assert l[a := u] - {a} == l - {a};
    if a in l {
      SumSplits(l, a);
    } else {
      assert l - {a} == l;
    }
  }

  /** A write that leaves the referrer alone leaves every referral set alone. */
  lemma SameReferrals(l: Ledger, a: string, u: User, b: string)
    requires a in l ==> u.referredBy == l[a].referredBy
    requires a !in l ==> u.referredBy.None?
    ensures ReferredTo(l[a := u], b) == ReferredTo(l, b)
  {}

  lemma SetGrows(s: set<string>, t: set<string>, a: string)
    requires a !in s && t == s + {a}
    ensures |t| == |s| + 1
  {}

  lemma EnsureKeeps(l: Ledger, a: string, now: int)
    requires Invariant(l) && a != ""
    ensures Invariant(Ensure(l, a, now))
  {
    if a !in l {
      var u := BlankUser(now);
      var l1 := l[a := u];
      SumAfterWrite(l, a, u);
      assert Accepted(l1) == Accepted(l) && Referred(l1) == Referred(l);
      assert ReferredTo(l, a) == {};
      forall b | b in l1 ensures Balanced(l1, b) {
        SameReferrals(l, a, u, b);
      }
    }
  }

  lemma ProfileKeeps(l: Ledger, a: string, patch: Profile, now: int)
    requires Invariant(l) && a in l && now != 0
    ensures Invariant(l[a := WithProfile(l[a], patch, now)])
  {
    var u := WithProfile(l[a], patch, now);
    var l1 := l[a := u];
    ProfileKeepsTotal(l, a, u);
    forall b | b in l1 ensures Balanced(l1, b) {
      SameReferrals(l, a, u, b);
      assert Balanced(l, b);
    }
  }

  lemma ProfileKeepsTotal(l: Ledger, a: string, u: User)
    requires Totalled(l) && a in l && u.referredBy == l[a].referredBy
    requires HasAccepted(l[a]) ==> HasAccepted(u)
    requires u.points - l[a].points == WELCOME_POINTS * (Bit(HasAccepted(u)) - Bit(HasAccepted(l[a])))
    ensures Totalled(l[a := u])
  {
    var l1 := l[a := u];
    SumAfterWrite(l, a, u);
    assert Referred(l1) == Referred(l);
    if HasAccepted(u) && !HasAccepted(l[a]) {
      SetGrows(Accepted(l), Accepted(l1), a);
    } else {
      assert Accepted(l1) == Accepted(l);
    }
  }

  lemma ReferralKeepsTotal(l: Ledger, a: string, r: string)
    requires Totalled(l) && a in l && r in l && a != r && r != "" && !IsReferred(l[a])
    ensures Totalled(Refer(l, a, r))
  {
    ReferralAwards(l, a, r);
    ReferralMarksOne(l, a, r);
  }

  lemma ReferralAwards(l: Ledger, a: string, r: string)
    requires a in l && r in l && a != r
    ensures SumPoints(Refer(l, a, r)) == SumPoints(l) + REFEREE_POINTS + REFERRER_POINTS
  {
    SumAfterWrite(l, a, AsReferee(l[a], r));
    SumAfterWrite(l[a := AsReferee(l[a], r)], r, AsReferrer(l[r]));
  }

  lemma ReferralMarksOne(l: Ledger, a: string, r: string)
    requires a in l && r in l && a != r && r != "" && !IsReferred(l[a])
    ensures Accepted(Refer(l, a, r)) == Accepted(l)
    ensures |Referred(Refer(l, a, r))| == |Referred(l)| + 1
  {
    SetGrows(Referred(l), Referred(Refer(l, a, r)), a);
  }

  lemma ReferralKeepsBalance(l: Ledger, a: string, r: string)
    requires AllBalanced(l) && a in l && r in l && a != r && !IsReferred(l[a])
    ensures AllBalanced(Refer(l, a, r))
  {
    var l2 := Refer(l, a, r);
    assert Balanced(l, a);
    assert l[a].referredBy.None?;
    forall b | b in l2 ensures Balanced(l2, b) {
      ReferralKeepsBalanceOf(l, a, r, b);
    }
  }

  lemma ReferralKeepsBalanceOf(l: Ledger, a: string, r: string, b: string)
    requires a in l && r in l && b in l && a != r && r != "" && l[a].referredBy.None?
    requires Balanced(l, b)
    ensures Balanced(Refer(l, a, r), b)
  {
    var l2 := Refer(l, a, r);
    if b == r {
      SetGrows(ReferredTo(l, r), ReferredTo(l2, r), a);
    } else {
      assert ReferredTo(l2, b) == ReferredTo(l, b);
    }
  }

  /** Callers are signed in, so their address is not empty, and the clock is past the epoch. */
  predicate Genuine(c: Call) {
    c.address != "" && c.now != 0
  }

  lemma CallKeepsInvariant(l: Ledger, c: Call)
    requires Invariant(l) && Genuine(c)
    ensures Invariant(Apply(l, c))
  {
    EnsureKeeps(l, c.address, c.now);
    var l1 := Ensure(l, c.address, c.now);
    match c
    case GetOrCreate(a, now) =>
    case UpdateProfile(a, patch, now) => ProfileKeeps(l1, a, patch, now);
    case ApplyReferral(a, r, now) =>
      if a != r && ReferralError(l, a, r, now).None? {
        ReferralKeepsTotal(l1, a, r);
        ReferralKeepsBalance(l1, a, r);
      }
  }

  function Run(l: Ledger, calls: seq<Call>): Ledger
    decreases |calls|
  {
    if calls == [] then l else Run(Apply(l, calls[0]), calls[1..])
  }

  lemma {:induction false} RunKeepsInvariant(l: Ledger, calls: seq<Call>)
    requires Invariant(l) && forall i :: 0 <= i < |calls| ==> Genuine(calls[i])
    ensures Invariant(Run(l, calls))
    decreases |calls|
  {
    if calls == [] {
    } else {
      CallKeepsInvariant(l, calls[0]);
      RunKeepsInvariant(Apply(l, calls[0]), calls[1..]);
    }
  }

  /**
   * The points ledger over every sequence of calls: each account's points are 100 if it accepted
   * the terms, 25 if it was referred and 50 for each account that names it as referrer; nobody
   * refers themselves; and all points together are 100 per acceptance and 75 per referral.
   */
  lemma PointsAddUp(calls: seq<Call>, a: string)
    requires forall i :: 0 <= i < |calls| ==> Genuine(calls[i])
    ensures var l := Run(map[], calls);
            && SumPoints(l) == 100 * |Accepted(l)| + 75 * |Referred(l)|
            && (a in l ==>
                  && l[a].points == 100 * Bit(l[a].termsAcceptedAt.Some?) + 25 * Bit(l[a].referredBy.Some?)
                                    + 50 * |ReferredTo(l, a)|
                  && l[a].referralCount == |ReferredTo(l, a)|
                  && l[a].referredBy != Some(a))
  {
    assert Accepted(map[]) == {} && Referred(map[]) == {};
    RunKeepsInvariant(map[], calls);
    var l := Run(map[], calls);
    if a in l {
      assert Balanced(l, a);
    }
  }

  /** A recorded referrer is never changed or removed by any later calls. */
  lemma {:induction false} ReferrerIsFinal(l: Ledger, calls: seq<Call>, a: string)
    requires a in l && IsReferred(l[a])
    ensures a in Run(l, calls) && Run(l, calls)[a].referredBy == l[a].referredBy
    decreases |calls|
  {
    if calls == [] {
    } else {
      ReferrerIsFinal(Apply(l, calls[0]), calls[1..], a);
    }
  }

  /**
   * A referral is applied once: when any calls have led to a ledger on which a referral of an account
   * is accepted, then whatever calls follow it, every further referral of that account is refused
   * and changes nothing.
   */
  lemma ReferralIsOnce(earlier: seq<Call>, first: Call, later: seq<Call>, second: Call)
    requires (forall i :: 0 <= i < |earlier| ==> Genuine(earlier[i])) && Genuine(first)
    requires first.ApplyReferral? && second.ApplyReferral? && second.address == first.address
    requires ReferralError(Run(map[], earlier), first.address, first.referrer, first.now).None?
    ensures first.referrer != ""
    ensures var l := Run(Apply(Run(map[], earlier), first), later);
            && ReferralError(l, second.address, second.referrer, second.now)
               == Some(if second.referrer == second.address then "cannot refer yourself" else "referral already set")
            && Apply(l, second) == l
            && first.address in l && l[first.address].referredBy == Some(first.referrer)
  {
    assert Accepted(map[]) == {} && Referred(map[]) == {};
    RunKeepsInvariant(map[], earlier);
    var l := Run(map[], earlier);
    assert first.referrer != "";
    ReferrerIsFinal(Apply(l, first), later, first.address);
  }

  /** Calls that do not refer an account leave its referrer as it is. */
  lemma {:induction false} OthersKeepReferrer(l: Ledger, calls: seq<Call>, a: string)
    requires a in l
    requires forall i :: 0 <= i < |calls| ==> !(calls[i].ApplyReferral? && calls[i].address == a)
    ensures a in Run(l, calls) && Run(l, calls)[a].referredBy == l[a].referredBy
    decreases |calls|
  {
    if calls == [] {
    } else {
      OthersKeepReferrer(Apply(l, calls[0]), calls[1..], a);
    }
  }

  /**
   * What the guard leans on: on a ledger of any origin, after a referral and any calls that do not refer
   * the same account, a second one to a known account is accepted exactly when the first named the
   * empty address, which is never an account of a ledger that calls have led to.
   */
  lemma SecondReferralIff(l: Ledger, first: Call, between: seq<Call>, second: Call)
    requires first.ApplyReferral? && second.ApplyReferral? && second.address == first.address
    requires ReferralError(l, first.address, first.referrer, first.now).None?
    requires forall i :: 0 <= i < |between| ==> !(between[i].ApplyReferral? && between[i].address == first.address)
    requires second.referrer != second.address && second.referrer in Run(Apply(l, first), between)
    ensures ReferralError(Run(Apply(l, first), between), second.address, second.referrer, second.now).None?
            <==> first.referrer == ""
  {
    OthersKeepReferrer(Apply(l, first), between, first.address);
  }

  // ---- what each call does, account by account ----

  /** Whether an account has not named a referrer yet; one that does not exist has not. */
  predicate Unreferred(l: Ledger, a: string) {
    a in l ==> l[a].referredBy.None? || l[a].referredBy == Some("")
  }

  /** A referral is accepted exactly between two accounts, the first of them new or without a referrer. */
  lemma ReferralAcceptedIff(l: Ledger, a: string, r: string, now: int)
    ensures ReferralError(l, a, r, now).None? <==> a != r && r in l && Unreferred(l, a)
    ensures a == r ==> ReferralError(l, a, r, now) == Some("cannot refer yourself")
    ensures a != r && !Unreferred(l, a) ==> ReferralError(l, a, r, now) == Some("referral already set")
    ensures a != r && Unreferred(l, a) && r !in l ==> ReferralError(l, a, r, now) == Some("unknown referrer")
  {}

  /** An account as it was, or as a first call finds it. */
  function Before(l: Ledger, a: string, now: int): User {
    if a in l then l[a] else User("", "", 0, None, 0, None, now)
  }

  /**
   * What an accepted referral does: the referee names the referrer and gains 25 points, the referrer
   * gains 50 and one referral, and nothing else changes but that a new referee gets an account.
   */
  lemma AcceptedReferralAwards(l: Ledger, a: string, r: string, now: int)
    requires a != r && r in l && Unreferred(l, a)
    ensures var after, u := Apply(l, ApplyReferral(a, r, now)), Before(l, a, now);
            && after.Keys == l.Keys + {a}
            && after[a] == u.(points := u.points + 25, referredBy := Some(r))
            && after[r] == l[r].(points := l[r].points + 50, referralCount := l[r].referralCount + 1)
            && forall x :: x in l && x != a && x != r ==> after[x] == l[x]
  {}

  /** A refused referral leaves every account as it was; at most it has opened one for the referee. */
  lemma RefusedReferralIsHarmless(l: Ledger, a: string, r: string, now: int)
    requires a == r || r !in l || !Unreferred(l, a)
    ensures var after := Apply(l, ApplyReferral(a, r, now));
            && after.Keys == l.Keys + (if a == r then {} else {a})
            && (forall x :: x in l ==> after[x] == l[x])
            && (a != r ==> after[a] == Before(l, a, now))
  {}

  /**
   * What a profile update does: given texts replace the name and the bio, cut to 40 and 280 characters;
   * terms accepted for the first time are dated and earn 100 points; nothing else changes.
   */
  lemma ProfileUpdateChanges(l: Ledger, a: string, patch: Profile, now: int)
    ensures var after, u := Apply(l, UpdateProfile(a, patch, now)), Before(l, a, now);
            && after.Keys == l.Keys + {a}
            && (forall x :: x in l && x != a ==> after[x] == l[x])
            && IsCut(after[a].displayName, patch.displayName.GetOr(u.displayName),
                     if patch.displayName.Some? then 40 else |u.displayName|)
            && IsCut(after[a].bio, patch.bio.GetOr(u.bio), if patch.bio.Some? then 280 else |u.bio|)
            && (var first := patch.acceptTerms && (u.termsAcceptedAt.None? || u.termsAcceptedAt == Some(0));
                && after[a].points == u.points + (if first then 100 else 0)
                && after[a].termsAcceptedAt == if first then Some(now) else u.termsAcceptedAt)
            && after[a].referredBy == u.referredBy && after[a].referralCount == u.referralCount
            && after[a].createdAt == u.createdAt
  {}

  /** A text cut to a limit: all of it if it fits, else exactly its first characters. */
  predicate IsCut(cut: string, text: string, limit: nat) {
    cut <= text && |cut| <= limit && (|cut| < limit ==> cut == text)
  }

  /** Looking an account up, or creating it, changes no account that exists. */
  lemma LookupCreatesOnce(l: Ledger, a: string, now: int)
    ensures var after := Apply(l, GetOrCreate(a, now));
            && after.Keys == l.Keys + {a}
            && (forall x :: x in l ==> after[x] == l[x])
            && after[a] == Before(l, a, now)
  {}
}

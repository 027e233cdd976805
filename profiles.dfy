/**
 * The `profiles` table, held in memory as a map keyed on `user_id`: at most
 * one brand profile per user, written by an upsert on that key.
 */
module Profiles {

  import opened Wrappers
  import opened Time
  import opened Auth

  datatype BrandProfile = BrandProfile(
    brandTone: string,
    industry: string,
    productList: string,
    targetAudience: string)

  /** The profile form's initial state. */
  const DefaultProfile := BrandProfile("friendly", "", "", "")

  datatype ProfileRow = ProfileRow(profile: BrandProfile, updatedAt: Timestamp)

  /** The outcome of `.select(...).eq('user_id', user).maybeSingle()`. */
  datatype ProfileRead =
    | ReadFailed(message: string)
    | ReadOk(row: Option<BrandProfile>)

  /** A read of the user's row; `fault` is the store's error, if it reports one. */
  function ReadProfile(rows: map<UserId, ProfileRow>, user: UserId, fault: Option<string>): (r: ProfileRead)
    ensures r.ReadFailed? <==> fault.Some?
    ensures r.ReadFailed? ==> r.message == fault.value
    ensures r.ReadOk? ==> (r.row.Some? <==> user in rows)
    ensures r.ReadOk? && user in rows ==> r.row.value == rows[user].profile
  {
    match fault
    case Some(m) => ReadFailed(m)
    case None => ReadOk(if user in rows then Some(rows[user].profile) else None)
  }

  /** `.upsert({...profile, user_id, updated_at}, { onConflict: 'user_id' })`. */
  function Upserted(rows: map<UserId, ProfileRow>, user: UserId, profile: BrandProfile, now: Timestamp): (r: map<UserId, ProfileRow>)
    ensures r.Keys == rows.Keys + {user}
    ensures r[user] == ProfileRow(profile, now)
    ensures forall u :: u in rows && u != user ==> r[u] == rows[u]
  {
    rows[user := ProfileRow(profile, now)]
  }

  /**
   * After an upsert the user's profile reads back as what was written, every
   * other user's read is as before, and a second upsert of the same fields at
   * the same time changes nothing.
   */
  lemma UpsertThenRead(rows: map<UserId, ProfileRow>, user: UserId, other: UserId, profile: BrandProfile, now: Timestamp)
    requires other != user
    ensures ReadProfile(Upserted(rows, user, profile, now), user, None) == ReadOk(Some(profile))
    ensures ReadProfile(Upserted(rows, user, profile, now), other, None) == ReadProfile(rows, other, None)
    ensures Upserted(Upserted(rows, user, profile, now), user, profile, now) == Upserted(rows, user, profile, now)
  {
  }

  class ProfileTable {
    var rows: map<UserId, ProfileRow>

    constructor ()
      ensures rows == map[]
    {
      rows := map[];
    }

    method Upsert(user: UserId, profile: BrandProfile, now: Timestamp)
      modifies this
      ensures rows == Upserted(old(rows), user, profile, now)
    {
      rows := rows[user := ProfileRow(profile, now)];
    }
  }
}

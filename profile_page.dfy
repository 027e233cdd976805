/**
 * The brand-profile form: it starts from default values, loads the
 * signed-in user's saved profile over them, and saves with an upsert keyed
 * on the user's id.
 */
module ProfilePage {

  import opened Wrappers
  import opened Time
  import opened Auth
  import opened Profiles
  import opened Routing

  const NotAuthenticated := "Not authenticated"
  const Saved := "Profile saved!"

  /** The form's fields after a read: a row found replaces them all; otherwise they stay. */
  function Loaded(current: BrandProfile, read: ProfileRead): (r: BrandProfile)
    ensures read.ReadOk? && read.row.Some? ==> r == read.row.value
    ensures !(read.ReadOk? && read.row.Some?) ==> r == current
  {
    if read.ReadOk? && read.row.Some? then read.row.value else current
  }

  /**
   * Loading a saved profile into a fresh form shows exactly what was saved;
   * a user with no saved profile sees the defaults.
   */
  lemma SaveThenLoad(rows: map<UserId, ProfileRow>, user: UserId, fields: BrandProfile, now: Timestamp)
    ensures Loaded(DefaultProfile, ReadProfile(Upserted(rows, user, fields, now), user, None)) == fields
    ensures user !in rows ==> Loaded(DefaultProfile, ReadProfile(rows, user, None)) == DefaultProfile
  {
  }

  class ProfileForm {
    var data: BrandProfile
    var loading: bool
    var saving: bool
    var err: Option<string>
    var msg: Option<string>
    var navigation: Navigation

    constructor ()
      ensures data == DefaultProfile && loading && !saving && err == None && msg == None && navigation == Stay
    {
      data := DefaultProfile;
      loading := true;
      saving := false;
      err := None;
      msg := None;
      navigation := Stay;
    }

    /**
     * The load effect. An auth error is shown and loading stops; with no
     * user the page goes to the login page and keeps loading; otherwise a
     * read error is shown, a row found replaces the fields, and loading
     * stops.
     */
    method Load(session: Session, profiles: ProfileTable, readFault: Option<string>)
      modifies this
      ensures session.error.Some? ==>
        err == session.error && !loading && data == old(data) && navigation == old(navigation)
      ensures session.error.None? && session.user.None? ==>
        err == None && navigation == Pushed(LoginPath) && loading == old(loading) && data == old(data)
      ensures Authenticated(session) ==>
        var read := ReadProfile(profiles.rows, session.user.value.id, readFault);
        && err == (if read.ReadFailed? then Some(read.message) else None)
        && data == Loaded(old(data), read)
        && !loading && navigation == old(navigation)
      ensures saving == old(saving) && msg == old(msg)
    {
      err := None;
      if session.error.Some? {
        err := session.error;
        loading := false;
        return;
      }
      if session.user.None? {
        navigation := Pushed(LoginPath);
        return;
      }
      var read := ReadProfile(profiles.rows, session.user.value.id, readFault);
      if read.ReadFailed? {
        err := Some(read.message);
      }
      data := Loaded(data, read);
      loading := false;
    }

    /**
     * `save`: messages are cleared first. Without a user the auth message
     * (or `Not authenticated`) is shown and nothing is written; a store
     * error is shown and nothing is written; otherwise the fields are
     * upserted under the user's id, `Profile saved!` is shown and the page
     * goes to the dashboard, with `saving` left set.
     */
    method Save(session: Session, profiles: ProfileTable, writeFault: Option<string>, now: Timestamp)
      modifies this, profiles
      ensures data == old(data) && loading == old(loading)
      ensures !Authenticated(session) ==>
        err == Some(session.error.GetOr(NotAuthenticated)) && msg == None && !saving
        && profiles.rows == old(profiles.rows) && navigation == old(navigation)
      ensures Authenticated(session) && writeFault.Some? ==>
        err == writeFault && msg == None && !saving
        && profiles.rows == old(profiles.rows) && navigation == old(navigation)
      ensures Authenticated(session) && writeFault.None? ==>
        err == None && msg == Some(Saved) && saving
        && profiles.rows == Upserted(old(profiles.rows), session.user.value.id, data, now)
        && navigation == Pushed(DashboardPath)
    {
      saving := true;
      err := None;
      msg := None;
      if !Authenticated(session) {
        err := Some(session.error.GetOr(NotAuthenticated));
        saving := false;
        return;
      }
      if writeFault.Some? {
        err := writeFault;
        saving := false;
        return;
      }
      profiles.Upsert(session.user.value.id, data, now);
      msg := Some(Saved);
      navigation := Pushed(DashboardPath);
    }
  }
}

/**
 * The top-level state of the dashboard (the `useState` slots of `App`,
 * App.tsx:75-88) and the handlers that overwrite them. Each handler is a
 * method; the collection transforms it applies are the functions of
 * RecordStore and UserTable.
 */
module App {

  import opened Wrappers
  import opened Types
  import opened Seqs
  import opened RecordStore
  import opened UserTable

  datatype Phase = Splash | Sales | LoginScreen | Greeting | InApp

  datatype Tab = Dashboard | Reports | Profile | Admin | Chat | Help

  /** A decoded backup file: the two recognised `type` discriminants, or anything else. */
  datatype Backup =
    | Full(users: seq<User>, records: seq<TimeRecord>)
    | Single(userProfile: User, records: seq<TimeRecord>)
    | Unknown

  /** What the user is told after a restore: nothing, the admin-only alert, or the invalid-file alert. */
  datatype RestoreOutcome = Restored | Denied | Invalid

  /** The tab a fresh login opens on. */
  function InitialTab(u: User): (t: Tab)
    ensures t == Admin <==> u.role.Master?
    ensures t == Dashboard <==> u.role.Employee?
  {
    if u.role == Master then Admin else Dashboard
  }

  /**
   * The guard of a full-system restore (App.tsx:160): refused only when
   * someone is logged in and is not the master; with no session it passes.
   */
  predicate FullRestoreAllowed(session: Option<User>): (ok: bool)
    ensures ok <==> session.None? || session.value.role == Master
  {
    !(session.Some? && session.value.role != Master)
  }

  /** The session after a full restore: re-looked-up by id in the restored users; absent, logged out. */
  function SessionAfterFullRestore(session: Option<User>, restored: seq<User>): (s: Option<User>)
    ensures session.None? ==> s.None?
    ensures session.Some? && s.Some? ==> s.value in restored && s.value.id == session.value.id
    ensures session.Some? && s.None? ==> forall i :: 0 <= i < |restored| ==> restored[i].id != session.value.id
  {
    if session.None? then None else FindById(restored, session.value.id)
  }

  /** Restoring a backup of the current users (ids unique) keeps the logged-in user logged in, unchanged. */
  lemma FullRestoreOfCurrentKeepsSession(session: Option<User>, users: seq<User>)
    requires IdsUnique(users)
    requires session.Some? ==> session.value in users
    ensures SessionAfterFullRestore(session, users) == session
  {
    if session.Some? {
      FindStored(users, session.value);
    }
  }

  class AppState {
    var users: seq<User>
    var records: seq<TimeRecord>
    var messages: seq<ChatMessage>
    var session: Option<User>
    var lang: Language
    var phase: Phase
    var activeTab: Tab

    /** At most one record per date. */
    ghost predicate RecordsKeyedByDate()
      reads this
    {
      DatesUnique(records)
    }

    /** No two users share an id. */
    ghost predicate UserIdsUnique()
      reads this
    {
      IdsUnique(users)
    }

    /** The initial state: the seed users, no records or messages, nobody logged in, Portuguese, splash screen. */
    constructor (initialUsers: seq<User>)
      ensures users == initialUsers && records == [] && messages == []
      ensures session == None && lang == Pt && phase == Splash && activeTab == Dashboard
    {
      users := initialUsers;
      records := [];
      messages := [];
      session := None;
      lang := Pt;
      phase := Splash;
      activeTab := Dashboard;
    }

    /** `handleLogin` (App.tsx:90-97); credentials are checked by the login screen, which is not part of this model. */
    method Login(u: User)
      modifies this
      ensures session == Some(u) && lang == u.language
      ensures activeTab == InitialTab(u) && phase == Greeting
      ensures users == old(users) && records == old(records) && messages == old(messages)
    {
      session := Some(u);
      lang := u.language;
      activeTab := InitialTab(u);
      phase := Greeting;
    }

    /** The logout buttons (App.tsx:432-436, 478). */
    method Logout()
      modifies this
      ensures phase == LoginScreen && session == None
      ensures users == old(users) && records == old(records) && messages == old(messages)
      ensures lang == old(lang) && activeTab == old(activeTab)
    {
      phase := LoginScreen;
      session := None;
    }

    /** `handleRegister` (App.tsx:99-105): append, then back to the login screen. */
    method Register(newUser: User)
      modifies this
      ensures users == old(users) + [newUser] && phase == LoginScreen
      ensures records == old(records) && messages == old(messages)
      ensures session == old(session) && lang == old(lang) && activeTab == old(activeTab)
    {
      users := users + [newUser];
      phase := LoginScreen;
    }

    /** `handleAddUser` (App.tsx:107-109); no duplicate-id check, as in the source. */
    method AddUser(newUser: User)
      modifies this
      ensures users == old(users) + [newUser]
      ensures records == old(records) && messages == old(messages)
      ensures session == old(session) && lang == old(lang) && phase == old(phase) && activeTab == old(activeTab)
    {
      users := users + [newUser];
    }

    /** `handleEditUser` (App.tsx:111-118): the session and language follow only when the edited user is the one logged in. */
    method EditUser(updated: User)
      modifies this
      ensures users == ReplaceById(old(users), updated)
      ensures old(session).Some? && old(session).value.id == updated.id ==>
        session == Some(updated) && lang == updated.language
      ensures !(old(session).Some? && old(session).value.id == updated.id) ==>
        session == old(session) && lang == old(lang)
      ensures records == old(records) && messages == old(messages)
      ensures phase == old(phase) && activeTab == old(activeTab)
      ensures old(UserIdsUnique()) ==> UserIdsUnique()
    {
      if UserIdsUnique() {
        ReplaceKeepsIdsUnique(users, updated);
      }
      users := ReplaceById(users, updated);
      if session.Some? && session.value.id == updated.id {
        session := Some(updated);
        lang := updated.language;
      }
    }

    /** `handleUpdateUserProfile` (App.tsx:121-125): the session and language are always set. */
    method UpdateUserProfile(updated: User)
      modifies this
      ensures users == ReplaceById(old(users), updated)
      ensures session == Some(updated) && lang == updated.language
      ensures records == old(records) && messages == old(messages)
      ensures phase == old(phase) && activeTab == old(activeTab)
      ensures old(UserIdsUnique()) ==> UserIdsUnique()
    {
      if UserIdsUnique() {
        ReplaceKeepsIdsUnique(users, updated);
      }
      users := ReplaceById(users, updated);
      session := Some(updated);
      lang := updated.language;
    }

    /** `handleDeleteUser` (App.tsx:127-129): records and the session are untouched. */
    method DeleteUser(userId: string)
      modifies this
      ensures users == DeleteById(old(users), userId)
      ensures (forall i :: 0 <= i < |old(users)| ==> old(users)[i].id != userId) ==> users == old(users)
      ensures records == old(records) && messages == old(messages)
      ensures session == old(session) && lang == old(lang) && phase == old(phase) && activeTab == old(activeTab)
      ensures old(UserIdsUnique()) ==> UserIdsUnique()
    {
      if forall i :: 0 <= i < |users| ==> users[i].id != userId {
        DeleteAbsentIsNoop(users, userId);
      }
      if UserIdsUnique() {
        DeleteKeepsIdsUnique(users, userId);
      }
      users := DeleteById(users, userId);
    }

    /** `handlePasswordChange` (App.tsx:131-135). */
    method ChangeUserPassword(userId: string, newPass: string)
      modifies this
      ensures users == ChangePassword(old(users), userId, newPass)
      ensures records == old(records) && messages == old(messages)
      ensures session == old(session) && lang == old(lang) && phase == old(phase) && activeTab == old(activeTab)
      ensures old(UserIdsUnique()) ==> UserIdsUnique()
    {
      ChangePasswordKeepsIds(users, userId, newPass);
      users := ChangePassword(users, userId, newPass);
    }

    /** `handleUpdateRecord` (App.tsx:137-142). */
    method UpdateRecord(record: TimeRecord)
      modifies this
      ensures records == UpsertByDate(old(records), record)
      ensures users == old(users) && messages == old(messages)
      ensures session == old(session) && lang == old(lang) && phase == old(phase) && activeTab == old(activeTab)
      ensures old(RecordsKeyedByDate()) ==> RecordsKeyedByDate()
    {
      if RecordsKeyedByDate() {
        UpsertKeepsDatesUnique(records, record);
      }
      records := UpsertByDate(records, record);
    }

    /**
     * `handleSendMessage` (App.tsx:144-154). The message id and timestamp,
     * which the source takes from the clock, are parameters.
     */
    method SendMessage(text: string, messageId: string, timestamp: string)
      modifies this
      ensures old(session).None? ==> messages == old(messages)
      ensures old(session).Some? ==>
        messages == old(messages) + [ChatMessage(messageId, old(session).value.id, text, timestamp, old(session).value.language)]
      ensures users == old(users) && records == old(records)
      ensures session == old(session) && lang == old(lang) && phase == old(phase) && activeTab == old(activeTab)
    {
      if session.None? {
        return;
      }
      var sender := session.value;
      messages := messages + [ChatMessage(messageId, sender.id, text, timestamp, sender.language)];
    }

    /**
     * The language selector (App.tsx:399-405, 465-470): set the language and,
     * when someone is logged in, save it in their profile through `EditUser`.
     */
    method SwitchLanguage(newLang: Language)
      modifies this
      ensures lang == newLang
      ensures old(session).None? ==> users == old(users) && session == None
      ensures old(session).Some? ==>
        var me := old(session).value.(language := newLang);
        users == ReplaceById(old(users), me) && session == Some(me)
      ensures records == old(records) && messages == old(messages)
      ensures phase == old(phase) && activeTab == old(activeTab)
    {
      lang := newLang;
      if session.Some? {
        EditUser(session.value.(language := newLang));
      }
    }

    /**
     * The currency selector (App.tsx:421): only the session copy changes,
     * the user table keeps the old currency. The selector is only shown to a
     * logged-in user (App.tsx:279).
     */
    method SwitchCurrency(currency: string)
      requires session.Some?
      modifies this
      ensures session == Some(old(session).value.(currency := currency))
      ensures users == old(users) && records == old(records) && messages == old(messages)
      ensures lang == old(lang) && phase == old(phase) && activeTab == old(activeTab)
    {
      session := Some(session.value.(currency := currency));
    }

    /**
     * `handleRestoreData` (App.tsx:157-195) on a well-formed payload.
     * A full restore is refused for a logged-in non-master, and otherwise
     * replaces both collections verbatim; the session is looked up again
     * by id, but only if someone was logged in. A single-user restore
     * replaces that user and merges the backup's records by date; the
     * session and language follow when it is the logged-in user. Anything
     * else changes nothing.
     */
    method RestoreData(backup: Backup) returns (outcome: RestoreOutcome)
      modifies this
      ensures backup.Full? ==>
        if FullRestoreAllowed(old(session)) then
          && outcome == Restored
          && users == backup.users && records == backup.records
          && session == SessionAfterFullRestore(old(session), backup.users)
        else
          && outcome == Denied
          && users == old(users) && records == old(records) && session == old(session)
      ensures backup.Single? ==>
        && outcome == Restored
        && users == ReplaceById(old(users), backup.userProfile)
        && records == MergeByDates(old(records), backup.records)
        && (old(session).Some? && old(session).value.id == backup.userProfile.id ==>
              session == Some(backup.userProfile) && lang == backup.userProfile.language)
        && (!(old(session).Some? && old(session).value.id == backup.userProfile.id) ==>
              session == old(session) && lang == old(lang))
      ensures backup.Unknown? ==>
        && outcome == Invalid
        && users == old(users) && records == old(records) && session == old(session)
      ensures !backup.Single? ==> lang == old(lang)
      ensures messages == old(messages) && phase == old(phase) && activeTab == old(activeTab)
    {
      match backup {
        case Full(backupUsers, backupRecords) =>
          if !FullRestoreAllowed(session) {
            return Denied;
          }
          users := backupUsers;
          records := backupRecords;
          session := SessionAfterFullRestore(session, backupUsers);
          outcome := Restored;
        case Single(profile, backupRecords) =>
          users := ReplaceById(users, profile);
          if session.Some? && session.value.id == profile.id {
            session := Some(profile);
            lang := profile.language;
          }
          records := MergeByDates(records, backupRecords);
          outcome := Restored;
        case Unknown =>
          outcome := Invalid;
      }
    }
  }
}

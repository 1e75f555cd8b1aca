/**
 * The SQLite persistence layer: four tables keyed by their primary keys,
 * written with `INSERT OR REPLACE` and `DELETE` and read with `SELECT`.
 * Each table is a map from its key to its remaining column; the class
 * `Store` is the database file, shared by every handler.
 */
module Database {
  import opened Wrappers

  /** The (chat_id, user_id) primary key of `user_join_dates` and `mute_records`. */
  datatype MemberKey = MemberKey(chatId: int, userId: int)

  /** A row of `mute_records` as `SELECT chat_id, user_id, until_date` returns it. */
  datatype MuteRow = MuteRow(chatId: int, userId: int, untilDate: int) {
    function Key(): MemberKey {
      MemberKey(chatId, userId)
    }
  }

  /** No two rows share a primary key. */
  predicate DistinctKeys(rows: seq<MuteRow>) {
    forall i, j :: 0 <= i < j < |rows| ==> rows[i].Key() != rows[j].Key()
  }

  /**
   * `rows` is what `SELECT ... WHERE until_date > now` returns from `records`:
   * each row is in the table and later than `now`, every such table row is
   * listed, and none twice.
   */
  predicate ListsActive(rows: seq<MuteRow>, records: map<MemberKey, int>, now: int) {
    && (forall r :: r in rows ==> r.Key() in records && records[r.Key()] == r.untilDate && r.untilDate > now)
    && (forall k :: k in records && records[k] > now ==> MuteRow(k.chatId, k.userId, records[k]) in rows)
    && DistinctKeys(rows)
  }

  class Store {
    /** `user_join_dates`: (chat_id, user_id) -> join_date (the clock reading when it was stored). */
    var joinDates: map<MemberKey, int>
    /** `welcome_messages`: chat_id -> message. */
    var welcomeMessages: map<int, string>
    /** `goodbye_messages`: chat_id -> message. */
    var goodbyeMessages: map<int, string>
    /** `mute_records`: (chat_id, user_id) -> until_date. */
    var muteRecords: map<MemberKey, int>

    /** `init_db` on a fresh database file: every table exists and is empty. */
    constructor ()
      ensures joinDates == map[] && welcomeMessages == map[] && goodbyeMessages == map[] && muteRecords == map[]
    {
      joinDates, welcomeMessages, goodbyeMessages, muteRecords := map[], map[], map[], map[];
    }

    /** `store_join_date`: upsert the current clock reading for the member. */
    method StoreJoinDate(chatId: int, userId: int, now: int)
      modifies this`joinDates
      ensures joinDates == old(joinDates)[MemberKey(chatId, userId) := now]
    {
      joinDates := joinDates[MemberKey(chatId, userId) := now];
    }

    /** `get_join_date`: the last stored value, or `None` if nothing was ever stored. */
    method GetJoinDate(chatId: int, userId: int) returns (r: Option<int>)
      ensures r.Some? <==> MemberKey(chatId, userId) in joinDates
      ensures r.Some? ==> r.value == joinDates[MemberKey(chatId, userId)]
    {
      var key := MemberKey(chatId, userId);
      if key in joinDates {
        r := Some(joinDates[key]);
      } else {
        r := None;
      }
    }

    /** `set_welcome_message`: upsert; the goodbye table is not touched. */
    method SetWelcomeMessage(chatId: int, message: string)
      modifies this`welcomeMessages
      ensures welcomeMessages == old(welcomeMessages)[chatId := message]
      ensures goodbyeMessages == old(goodbyeMessages)
    {
      welcomeMessages := welcomeMessages[chatId := message];
    }

    /** `get_welcome_message`: the chat's message, or `None` if it was never set. */
    method GetWelcomeMessage(chatId: int) returns (r: Option<string>)
      ensures r.Some? <==> chatId in welcomeMessages
      ensures r.Some? ==> r.value == welcomeMessages[chatId]
    {
      if chatId in welcomeMessages {
        r := Some(welcomeMessages[chatId]);
      } else {
        r := None;
      }
    }

    /** `set_goodbye_message`: upsert; the welcome table is not touched. */
    method SetGoodbyeMessage(chatId: int, message: string)
      modifies this`goodbyeMessages
      ensures goodbyeMessages == old(goodbyeMessages)[chatId := message]
      ensures welcomeMessages == old(welcomeMessages)
    {
      goodbyeMessages := goodbyeMessages[chatId := message];
    }

    /** `get_goodbye_message`: the chat's message, or `None` if it was never set. */
    method GetGoodbyeMessage(chatId: int) returns (r: Option<string>)
      ensures r.Some? <==> chatId in goodbyeMessages
      ensures r.Some? ==> r.value == goodbyeMessages[chatId]
    {
      if chatId in goodbyeMessages {
        r := Some(goodbyeMessages[chatId]);
      } else {
        r := None;
      }
    }

    /** `add_mute_record`: upsert on (chat_id, user_id); every other row stays as it was. */
    method AddMuteRecord(chatId: int, userId: int, untilDate: int)
      modifies this`muteRecords
      ensures muteRecords == old(muteRecords)[MemberKey(chatId, userId) := untilDate]
    {
      muteRecords := muteRecords[MemberKey(chatId, userId) := untilDate];
    }

    /**
     * `get_active_mutes`: every row with `until_date > now`, each once, in an
     * order the database chooses; the table is only read.
     */
    method GetActiveMutes(now: int) returns (rows: seq<MuteRow>)
      ensures ListsActive(rows, muteRecords, now)
    {
      rows := [];
      var unread := muteRecords.Keys;
      while unread != {}
        invariant unread <= muteRecords.Keys
        invariant forall r :: r in rows ==> r.Key() in muteRecords && r.Key() !in unread && muteRecords[r.Key()] == r.untilDate && r.untilDate > now
        invariant forall k :: k in muteRecords && k !in unread && muteRecords[k] > now ==> MuteRow(k.chatId, k.userId, muteRecords[k]) in rows
        invariant DistinctKeys(rows)
        decreases unread
      {
        var k :| k in unread;
        if muteRecords[k] > now {
          rows := rows + [MuteRow(k.chatId, k.userId, muteRecords[k])];
        }
        unread := unread - {k};
      }
    }

    /** `remove_mute_record`: delete the (chat_id, user_id) row if there is one. */
    method RemoveMuteRecord(chatId: int, userId: int)
      modifies this`muteRecords
      ensures muteRecords == old(muteRecords) - {MemberKey(chatId, userId)}
    {
      muteRecords := muteRecords - {MemberKey(chatId, userId)};
    }
  }

  /**
   * A client of the store: deleting a mute record removes exactly that row,
   * deleting it again changes nothing, and deleting a missing row is a no-op.
   */
  method RemoveMuteRecordTwice(records: map<MemberKey, int>, chatId: int, userId: int)
    returns (once: map<MemberKey, int>, twice: map<MemberKey, int>)
    ensures MemberKey(chatId, userId) !in once
    ensures forall k :: k in records && k != MemberKey(chatId, userId) ==> k in once && once[k] == records[k]
    ensures forall k :: k in once ==> k in records
    ensures MemberKey(chatId, userId) !in records ==> once == records
    ensures twice == once
  {
    var db := new Store();
    db.muteRecords := records;
    db.RemoveMuteRecord(chatId, userId);
    once := db.muteRecords;
    db.RemoveMuteRecord(chatId, userId);
    twice := db.muteRecords;
  }

  /**
   * A client of the store: after two join dates are stored for a member, the
   * read returns the second; another member, never stored, reads as `None`.
   */
  method JoinDateLastWriteWins(chatId: int, userId: int, first: int, second: int, otherUser: int)
    returns (r: Option<int>, other: Option<int>)
    requires otherUser != userId
    ensures r == Some(second) && other == None
  {
    var db := new Store();
    db.StoreJoinDate(chatId, userId, first);
    db.StoreJoinDate(chatId, userId, second);
    r := db.GetJoinDate(chatId, userId);
    other := db.GetJoinDate(chatId, otherUser);
  }

  /** A client of the store: on a fresh database, two welcome writes and a read return the second message, and the goodbye text is untouched. */
  method WelcomeLastWriteWins(chatId: int, first: string, second: string, goodbye: string) returns (r: Option<string>, bye: Option<string>)
    ensures r == Some(second) && bye == Some(goodbye)
  {
    var db := new Store();
    db.SetGoodbyeMessage(chatId, goodbye);
    db.SetWelcomeMessage(chatId, first);
    db.SetWelcomeMessage(chatId, second);
    r := db.GetWelcomeMessage(chatId);
    bye := db.GetGoodbyeMessage(chatId);
  }
}

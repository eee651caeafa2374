/** The session helpers of src/auth/session.py. A request's session is a dictionary of JSON values
    (`request.session`); this module owns three of its keys: "session" (the serialised SessionData),
    "flash_messages" (the flash queue) and, written by the CSRF generator, "csrf_token". */
module Session {
  import opened Common

  /** A logged-in user's session record. Timestamps are integer seconds and are stored as JSON
      integers in the dictionary form. */
  datatype SessionData = SessionData(userId: int, username: string, role: string, createdAt: int, lastActivity: int)

  /** `SessionData(user_id, username, role)`: both timestamps are the creation time. */
  function NewSessionData(userId: int, username: string, role: string, now: int): (s: SessionData)
    ensures s.userId == userId && s.username == username && s.role == role
    ensures s.createdAt == now && s.lastActivity == now
  {
    SessionData(userId, username, role, now, now)
  }

  const SessionFields: set<string> := {"user_id", "username", "role", "created_at", "last_activity"}

  /** `to_dict`. */
  function ToDict(s: SessionData): (j: Json)
    ensures j.JObject? && j.fields.Keys == SessionFields
  {
    JObject(map[
      "user_id" := JInt(s.userId),
      "username" := JStr(s.username),
      "role" := JStr(s.role),
      "created_at" := JInt(s.createdAt),
      "last_activity" := JInt(s.lastActivity)
    ])
  }

  /** `from_dict`: None where Python raises, i.e. when the value is not a dictionary, a key is missing
      or a timestamp is not one. Keys other than the five are ignored. */
  function FromDict(j: Json): (r: Option<SessionData>)
    ensures r.Some? ==> j.JObject? && SessionFields <= j.fields.Keys
  {
    match j
    case JObject(f) =>
      if && "user_id" in f && f["user_id"].JInt?
         && "username" in f && f["username"].JStr?
         && "role" in f && f["role"].JStr?
         && "created_at" in f && f["created_at"].JInt?
         && "last_activity" in f && f["last_activity"].JInt?
      then Some(SessionData(f["user_id"].i, f["username"].s, f["role"].s, f["created_at"].i, f["last_activity"].i))
      else None
    case _ => None
  }

  /** Reading back what was written gives every field back. */
  lemma FromDictToDict(s: SessionData)
    ensures FromDict(ToDict(s)) == Some(s)
  {
  }

  /** Conversely, a dictionary that reads as `s` agrees with `ToDict(s)` on the five fields. */
  lemma ToDictFromDict(j: Json)
    requires FromDict(j).Some?
    ensures forall k :: k in SessionFields ==> j.fields[k] == ToDict(FromDict(j).value).fields[k]
  {
  }

  /** The outcome of `get_session_data`: no "session" key, a record, or a value `from_dict` raises on. */
  datatype SessionLookup = Absent | Present(data: SessionData) | Malformed

  /** `get_session_data`. */
  function GetSessionData(session: map<string, Json>): (r: SessionLookup)
    ensures r.Absent? <==> "session" !in session
    ensures r.Present? ==> FromDict(session["session"]) == Some(r.data)
    ensures r.Malformed? <==> "session" in session && FromDict(session["session"]).None?
  {
    if "session" !in session then Absent
    else match FromDict(session["session"])
      case Some(d) => Present(d)
      case None => Malformed
  }

  /** A flash queue entry `{"text": message, "category": category}`. */
  function FlashEntry(message: string, category: string): (j: Json)
    ensures j.JObject? && j.fields.Keys == {"text", "category"}
  {
    JObject(map["text" := JStr(message), "category" := JStr(category)])
  }

  /** The queued flash messages, oldest first; none when the key is absent. */
  function FlashQueue(session: map<string, Json>): (q: seq<Json>)
    ensures "flash_messages" !in session ==> q == []
  {
    if "flash_messages" in session && session["flash_messages"].JList? then session["flash_messages"].items else []
  }

  /** The shapes this module's writers leave under its keys. Python raises on anything else (from_dict on
      a torn record, append on a non-list, compare_digest on a non-string), and nothing here writes that. */
  predicate WellFormed(session: map<string, Json>)
  {
    && ("session" in session ==> FromDict(session["session"]).Some?)
    && ("flash_messages" in session ==> session["flash_messages"].JList?)
    && ("csrf_token" in session ==> session["csrf_token"].JStr?)
  }

  /** The session after `flash(message, category)`. */
  function WithFlash(session: map<string, Json>, message: string, category: string): (s: map<string, Json>)
    requires WellFormed(session)
    ensures WellFormed(s)
    ensures s.Keys == session.Keys + {"flash_messages"}
    ensures forall k :: k in session && k != "flash_messages" ==> s[k] == session[k]
    ensures FlashQueue(s) == FlashQueue(session) + [FlashEntry(message, category)]
  {
    session["flash_messages" := JList(FlashQueue(session) + [FlashEntry(message, category)])]
  }

  /** The session after flashing `messages` (text and category pairs) in order. */
  function WithFlashes(session: map<string, Json>, messages: seq<(string, string)>): (s: map<string, Json>)
    requires WellFormed(session)
    ensures WellFormed(s)
    decreases |messages|
  {
    if messages == [] then session
    else
      var last := messages[|messages| - 1];
      WithFlash(WithFlashes(session, messages[..|messages| - 1]), last.0, last.1)
  }

  /** The entries of a sequence of flashed (text, category) pairs. */
  function FlashEntries(messages: seq<(string, string)>): (es: seq<Json>)
    ensures |es| == |messages|
    ensures forall i :: 0 <= i < |messages| ==> es[i] == FlashEntry(messages[i].0, messages[i].1)
  {
    seq(|messages|, i requires 0 <= i < |messages| => FlashEntry(messages[i].0, messages[i].1))
  }

  /** Repeated flashing queues every message, in the order flashed, after those already queued, and
      changes no other key. */
  lemma {:induction false} FlashesKeepOrder(session: map<string, Json>, messages: seq<(string, string)>)
    requires WellFormed(session)
    ensures FlashQueue(WithFlashes(session, messages)) == FlashQueue(session) + FlashEntries(messages)
    ensures forall k :: k in session && k != "flash_messages" ==>
      (k in WithFlashes(session, messages) && WithFlashes(session, messages)[k] == session[k])
    decreases |messages|
  {
    if messages != [] {
      var n := |messages| - 1;
      FlashesKeepOrder(session, messages[..n]);
      assert FlashEntries(messages) == FlashEntries(messages[..n]) + [FlashEntry(messages[n].0, messages[n].1)];
    }
  }

  /** `request.session` as a mutable object. */
  class RequestSession {
    var entries: map<string, Json>

    ghost predicate Valid()
      reads this
    {
      WellFormed(entries)
    }

    constructor (initial: map<string, Json>)
      requires WellFormed(initial)
      ensures Valid() && entries == initial
    {
      entries := initial;
    }

    /** `set_session_data`: a later `get_session_data` reads back exactly `data`. */
    method SetSessionData(data: SessionData)
      requires Valid()
      modifies this
      ensures Valid()
      ensures entries == old(entries)["session" := ToDict(data)]
      ensures GetSessionData(entries) == Present(data)
    {
      entries := entries["session" := ToDict(data)];
    }

    /** `clear_session`: every key goes, the flash queue and the CSRF token included. */
    method ClearSession()
      modifies this
      ensures Valid() && entries == map[]
      ensures GetSessionData(entries) == Absent && FlashQueue(entries) == []
    {
      entries := map[];
    }

    /** `flash`: appends the entry to the queue, creating the queue if absent; no other key changes. */
    method Flash(message: string, category: string := "info")
      requires Valid()
      modifies this
      ensures Valid()
      ensures entries == WithFlash(old(entries), message, category)
    {
      if "flash_messages" !in entries {
        entries := entries["flash_messages" := JList([])];
      }
      entries := entries["flash_messages" := JList(entries["flash_messages"].items + [FlashEntry(message, category)])];
    }

    /** `get_flashed_messages`: pops the queue (oldest first), so an immediate second call returns none. */
    method GetFlashedMessages() returns (messages: seq<Json>)
      requires Valid()
      modifies this
      ensures Valid()
      ensures messages == FlashQueue(old(entries))
      ensures entries == old(entries) - {"flash_messages"}
      ensures FlashQueue(entries) == []
    {
      if "flash_messages" in entries {
        messages := entries["flash_messages"].items;
        entries := entries - {"flash_messages"};
      } else {
        messages := [];
      }
    }
  }
}

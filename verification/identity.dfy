/** Who a conversation belongs to: the anonymous id kept in the session,
    the owner key messages are stored under, the `is_anonymous` flag, logout's
    session clean-up and `AuthManager.is_admin`. The session is a map from
    keys to values; only string values matter here. */
module Identity {
  import opened Strings

  type Session = map<string, string>

  const AnonKey: string := "anonymous_user_id"
  const UserKey: string := "user_id"
  const AnonPrefix: string := "anon_"

  /** The two administrator addresses, both already lower-case. */
  const AdminEmails: seq<string> := ["rizkyanandaalamsyahdly@gmail.com", "administrator@akademik.com"]

  predicate IsHexDigit(c: char) {
    '0' <= c <= '9' || 'a' <= c <= 'f'
  }

  /** What `uuid.uuid4().hex` looks like: 32 lower-case hexadecimal digits. */
  ghost predicate IsUuidHex(h: string) {
    |h| == 32 && forall k :: 0 <= k < |h| ==> IsHexDigit(h[k])
  }

  /** `"anon_"` followed by eight lower-case hexadecimal digits. */
  ghost predicate IsAnonId(id: string) {
    && |id| == 13 && StartsWith(id, AnonPrefix)
    && forall k :: 5 <= k < 13 ==> IsHexDigit(id[k])
  }

  /** A session whose anonymous id, if it has one, is of the generated form. */
  ghost predicate WellFormedSession(s: Session) {
    AnonKey in s ==> IsAnonId(s[AnonKey])
  }

  /** `generate_anonymous_user_id`: the session's anonymous id, created from
      the first eight digits of a fresh uuid when the session has none. */
  function GenerateAnonymousUserId(s: Session, uuidHex: string): (r: (string, Session))
    requires IsUuidHex(uuidHex)
    ensures AnonKey in r.1 && r.1[AnonKey] == r.0
    ensures AnonKey in s ==> r == (s[AnonKey], s)
    ensures AnonKey !in s ==> r.0 == AnonPrefix + uuidHex[..8]
    ensures forall k :: k != AnonKey ==> (k in r.1 <==> k in s)
    ensures forall k :: k in s ==> k in r.1 && r.1[k] == s[k]
  {
    if AnonKey in s then (s[AnonKey], s)
    else
      var id := AnonPrefix + uuidHex[..8];
      (id, s[AnonKey := id])
  }

  /** The id is created once: a second call, whatever uuid it draws, returns
      the same id and leaves the session as the first call left it. */
  lemma AnonIdStable(s: Session, h1: string, h2: string)
    requires IsUuidHex(h1) && IsUuidHex(h2)
    ensures var (id, s1) := GenerateAnonymousUserId(s, h1);
            GenerateAnonymousUserId(s1, h2) == (id, s1)
  {
  }

  /** A generated id is `"anon_"` and eight hexadecimal digits, 13 characters
      long, and the session stays well formed. */
  lemma AnonIdShape(s: Session, h: string)
    requires IsUuidHex(h) && WellFormedSession(s)
    ensures IsAnonId(GenerateAnonymousUserId(s, h).0)
    ensures WellFormedSession(GenerateAnonymousUserId(s, h).1)
  {
    if AnonKey !in s {
      var id := AnonPrefix + h[..8];
      assert id[..5] == AnonPrefix;
      assert forall k :: 5 <= k < 13 ==> id[k] == h[k - 5];
    }
  }

  /** The stored `is_anonymous` flag: the owner key starts with `"anon_"`. */
  predicate IsAnonymous(userId: string): (b: bool)
    ensures b <==> exists rest :: userId == AnonPrefix + rest
  {
    if StartsWith(userId, AnonPrefix) then
      assert userId == AnonPrefix + userId[|AnonPrefix|..];
      true
    else
      assert forall rest :: (AnonPrefix + rest)[..|AnonPrefix|] == AnonPrefix;
      false
  }

  /** Every generated anonymous id is flagged anonymous. */
  lemma AnonIdIsAnonymous(id: string)
    requires IsAnonId(id)
    ensures IsAnonymous(id)
  {
  }

  /** `st.session_state.get("user_id", generate_anonymous_user_id())`: the
      logged-in user's id, else the anonymous id. The default argument is
      evaluated first, so the anonymous id is created either way. */
  function OwnerKey(s: Session, uuidHex: string): (r: (string, Session))
    requires IsUuidHex(uuidHex)
    ensures AnonKey in r.1
    ensures UserKey in s ==> r.0 == s[UserKey]
    ensures UserKey !in s ==> r.0 == r.1[AnonKey]
    ensures r.1 == GenerateAnonymousUserId(s, uuidHex).1
  {
    var (anon, s1) := GenerateAnonymousUserId(s, uuidHex);
    if UserKey in s then (s[UserKey], s1) else (anon, s1)
  }

  /** The document `save_conversation` stores; the timestamp is a parameter. */
  datatype StoredMessage = StoredMessage(input: string, response: string, timestamp: int, isAnonymous: bool)

  function SaveConversation(owner: string, input: string, response: string, now: int): (d: StoredMessage)
    ensures d.input == input && d.response == response && d.timestamp == now
    ensures d.isAnonymous <==> |owner| >= 5 && owner[..5] == "anon_"
  {
    StoredMessage(input, response, now, IsAnonymous(owner))
  }

  /** Without a login, what is saved is saved under the anonymous id and is
      flagged anonymous. */
  lemma LoggedOutSavesAnonymously(s: Session, h: string, input: string, response: string, now: int)
    requires IsUuidHex(h) && WellFormedSession(s) && UserKey !in s
    ensures SaveConversation(OwnerKey(s, h).0, input, response, now).isAnonymous
  {
    AnonIdShape(s, h);
  }

  /** The logout button: every key but the anonymous id is removed. */
  function Logout(s: Session): (r: Session)
    ensures r.Keys <= {AnonKey}
    ensures AnonKey in r <==> AnonKey in s
    ensures AnonKey in s ==> r[AnonKey] == s[AnonKey]
  {
    map k | k in s && k == AnonKey :: s[k]
  }

  /** After logout the visitor is anonymous again under the same id as before
      logging in, so new messages join the earlier anonymous ones. */
  lemma LogoutKeepsAnonymousOwner(s: Session, h: string)
    requires IsUuidHex(h) && AnonKey in s
    ensures UserKey !in Logout(s)
    ensures OwnerKey(Logout(s), h).0 == s[AnonKey]
  {
  }

  /** Logging out twice is logging out once. */
  lemma LogoutIdempotent(s: Session)
    ensures Logout(Logout(s)) == Logout(s)
  {
  }

  /** `AuthManager.is_admin`: the lower-cased address is one of the two. */
  predicate IsAdmin(email: string): (b: bool)
    ensures b <==> exists a :: a in AdminEmails && Lower(email) == Lower(a)
  {
    FirstAdminLower();
    SecondAdminLower();
    NoUpperLower(AdminEmails[0]);
    NoUpperLower(AdminEmails[1]);
    Lower(email) in AdminEmails
  }

  /** Case never matters, and the listed addresses are administrators. */
  lemma IsAdminCaseInsensitive(e1: string, e2: string)
    requires Lower(e1) == Lower(e2)
    ensures IsAdmin(e1) <==> IsAdmin(e2)
  {
  }

  lemma FirstAdminLower()
    ensures NoUpper("rizkyanandaalamsyahdly@gmail.com")
  {
  }

  lemma SecondAdminLower()
    ensures NoUpper("administrator@akademik.com")
  {
  }

  lemma ListedAreAdmins(email: string)
    requires email in AdminEmails
    ensures IsAdmin(email)
  {
    FirstAdminLower();
    SecondAdminLower();
    NoUpperLower(email);
  }
}

/** The support chat: the sign-in form, the message list with its welcome message,
    sending a message and the bot's reply, and realtime inserts de-duplicated by id. */
module Chat {
  import opened Base
  import opened Text

  datatype Sender = User | Bot

  /** A stored chat message, without its timestamps. */
  datatype Message = Message(id: string, text: string, sender: Sender, userId: string,
                             userName: string, admissionId: string, phone: string)

  datatype UserInfo = UserInfo(name: string, admissionId: string, phone: string)

  function WelcomeText(name: string): string
  {
    "Hello " + Trim(name) + "! How can I help you today?"
  }

  function ReplyText(u: UserInfo): string
  {
    "Thank you for your message, " + u.name + ". We have received your inquiry and will forward it to our support team. A representative will contact you at " + u.phone + " soon."
  }

  /** Some message in `ms` carries `id`. */
  predicate HasId(ms: seq<Message>, id: string)
  {
    exists j :: 0 <= j < |ms| && ms[j].id == id
  }

  /** The realtime handler's update: a message whose id is already listed is
      dropped, a new one goes at the end. */
  function Inserted(ms: seq<Message>, m: Message): seq<Message>
  {
    if HasId(ms, m.id) then ms else ms + [m]
  }

  /** No two listed messages share an id. */
  predicate DistinctIds(ms: seq<Message>)
  {
    forall i, j :: 0 <= i < j < |ms| ==> ms[i].id != ms[j].id
  }

  /** Delivering the same message twice is the same as once. */
  lemma InsertedIdempotent(ms: seq<Message>, m: Message)
    ensures Inserted(Inserted(ms, m), m) == Inserted(ms, m)
  {
    if !HasId(ms, m.id) {
      var r := ms + [m];
      assert r[|ms|].id == m.id;
    }
  }

  /** De-duplication keeps the ids distinct, and the list only grows at its end. */
  lemma InsertedKeepsDistinct(ms: seq<Message>, m: Message)
    requires DistinctIds(ms)
    ensures DistinctIds(Inserted(ms, m))
    ensures |ms| <= |Inserted(ms, m)| && Inserted(ms, m)[..|ms|] == ms
    ensures HasId(Inserted(ms, m), m.id)
  {
    if !HasId(ms, m.id) {
      var r := ms + [m];
      assert r[|ms|].id == m.id;
      assert r[..|ms|] == ms;
    } else {
      var j :| 0 <= j < |ms| && ms[j].id == m.id;
      assert ms[..|ms|] == ms;
    }
  }

  class ChatPanel {
    var userInfo: Option<UserInfo>
    var messages: seq<Message>
    var input: string
    var loading: bool

    constructor ()
      ensures userInfo == None && messages == [] && input == "" && !loading
    {
      userInfo := None;
      messages := [];
      input := "";
      loading := false;
    }

    /** `handleUserInfoSubmit`, then `loadMessages`. `saved` is the upserted user row
        (`None` on an error), `stored` the messages on record for that admission id
        (`None` on an error) and `welcomeId` the id of the inserted welcome message
        (`None` when that insert fails). */
    method SubmitUserInfo(name: string, admissionId: string, phone: string, saved: Option<UserInfo>,
                          stored: Option<seq<Message>>, welcomeId: Option<string>)
      modifies this
      ensures input == old(input)
      ensures Trim(name) == "" || Trim(admissionId) == "" || Trim(phone) == "" ==>
        userInfo == old(userInfo) && messages == old(messages) && loading == old(loading)
      ensures Trim(name) != "" && Trim(admissionId) != "" && Trim(phone) != "" ==> !loading
      ensures saved.None? ==> userInfo == old(userInfo) && messages == old(messages)
      ensures Trim(name) != "" && Trim(admissionId) != "" && Trim(phone) != "" && saved.Some? ==>
        userInfo == saved
        && messages == if stored.Some? && stored.value != [] then stored.value
                       else if stored.Some? && welcomeId.Some? then
                         [Message(welcomeId.value, WelcomeText(name), Bot, "bot", "Support Bot", saved.value.admissionId, phone)]
                       else old(messages)
    {
      if Trim(name) == "" || Trim(admissionId) == "" || Trim(phone) == "" {
        return;
      }
      loading := true;
      if saved.Some? {
        userInfo := saved;
        if stored.Some? {
          if |stored.value| > 0 {
            messages := stored.value;
          } else if welcomeId.Some? {
            messages := [Message(welcomeId.value, WelcomeText(name), Bot, "bot", "Support Bot", saved.value.admissionId, phone)];
          }
        }
      }
      loading := false;
    }

    /** `handleSendMessage`. `userMsgId` and `botMsgId` are the ids the two inserts
        return (`None` for a failed insert). */
    method Send(userId: string, userMsgId: Option<string>, botMsgId: Option<string>)
      modifies this
      ensures userInfo == old(userInfo)
      ensures Trim(old(input)) == "" || old(userInfo).None? || old(loading) ==>
        messages == old(messages) && input == old(input) && loading == old(loading)
      ensures Trim(old(input)) != "" && old(userInfo).Some? && !old(loading) ==> !loading
      ensures Trim(old(input)) != "" && old(userInfo).Some? && !old(loading) && (userMsgId.None? || botMsgId.None?) ==>
        messages == old(messages) && input == old(input)
      ensures Trim(old(input)) != "" && old(userInfo).Some? && !old(loading) && userMsgId.Some? && botMsgId.Some? ==>
        var u := old(userInfo).value;
        input == ""
        && messages == old(messages)
           + [Message(userMsgId.value, old(input), User, userId, u.name, u.admissionId, u.phone),
              Message(botMsgId.value, ReplyText(u), Bot, "bot", "Support Bot", u.admissionId, u.phone)]
    {
      if Trim(input) == "" || userInfo.None? || loading {
        return;
      }
      var u := userInfo.value;
      var userMessage := Message("", input, User, userId, u.name, u.admissionId, u.phone);
      loading := true;
      if userMsgId.Some? && botMsgId.Some? {
        var botMessage := Message(botMsgId.value, ReplyText(u), Bot, "bot", "Support Bot", u.admissionId, u.phone);
        input := "";
        messages := messages + [userMessage.(id := userMsgId.value), botMessage];
      }
      loading := false;
    }

    /** The realtime INSERT handler, live only once the user has signed in. */
    method Receive(m: Message)
      modifies this
      ensures userInfo == old(userInfo) && input == old(input) && loading == old(loading)
      ensures messages == if old(userInfo).Some? then Inserted(old(messages), m) else old(messages)
    {
      if userInfo.None? {
        return;
      }
      var found := false;
      var i := 0;
      while i < |messages| && !found
        invariant 0 <= i <= |messages|
        invariant found ==> HasId(messages, m.id)
        invariant !found ==> forall j :: 0 <= j < i ==> messages[j].id != m.id
      {
        if messages[i].id == m.id {
          found := true;
        }
        i := i + 1;
      }
      if !found {
        messages := messages + [m];
      }
    }
  }
}

/**
 * The mock calling and messaging layer: call logs and text messages kept per
 * user, newest first and capped in length, the conversation view of one
 * contact, and the two display formatters (phone numbers and call durations).
 * Timers, the random parts of generated ids and the network delay are not
 * modelled; the random draws that decide a value are parameters.
 */
module Communication {
  import opened Common
  import opened Time
  import Utils

  datatype CallDirection = Outgoing | Incoming

  datatype SmsDirection = Sent | Received

  datatype CallLog = CallLog(
    id: string,
    userId: string,
    contactName: string,
    contactPhone: string,
    direction: CallDirection,
    duration: int,
    timestamp: Timestamp,
    requestId: Option<string>)

  datatype SmsMessage = SmsMessage(
    id: string,
    userId: string,
    contactName: string,
    contactPhone: string,
    message: string,
    direction: SmsDirection,
    timestamp: Timestamp,
    requestId: Option<string>)

  /**
   * The two per-user entries of browser storage this file uses: the call log
   * and the message list of each user, keyed by user id. A missing entry reads
   * as an empty list.
   */
  datatype CommStore = CommStore(calls: map<string, seq<CallLog>>, sms: map<string, seq<SmsMessage>>)

  /** How many call log entries are kept per user. */
  const CallLogCap: nat := 50

  /** How many messages are kept per user. */
  const SmsCap: nat := 100

  /** `getCallLogs`. */
  function GetCallLogs(store: CommStore, userId: string): seq<CallLog>
  {
    if userId in store.calls then store.calls[userId] else []
  }

  /** `getSMSMessages`. */
  function GetSmsMessages(store: CommStore, userId: string): seq<SmsMessage>
  {
    if userId in store.sms then store.sms[userId] else []
  }

  // ---------------------------------------------------------------------------
  // Newest-first capped lists
  // ---------------------------------------------------------------------------

  /**
   * `list.unshift(x); list.slice(0, cap)`: the new entry first, then the
   * previous entries in their order, as many as fit under the cap.
   */
  function PrependCapped<T>(xs: seq<T>, x: T, cap: nat): (r: seq<T>)
    requires cap >= 1
    ensures |r| == if |xs| + 1 < cap then |xs| + 1 else cap
    ensures r[0] == x
    ensures r[1..] == xs[..|r| - 1]
  {
    Take([x] + xs, cap)
  }

  /** Newest first: every entry is at least as recent as the ones after it. */
  predicate NewestFirst<T>(xs: seq<T>, time: T -> Timestamp)
  {
    forall i, j :: 0 <= i < j < |xs| ==> time(xs[i]) >= time(xs[j])
  }

  /**
   * Prepending an entry no older than the current head keeps a newest-first
   * list newest first, and never grows it past the cap.
   */
  lemma PrependKeepsNewestFirst<T>(xs: seq<T>, x: T, cap: nat, time: T -> Timestamp)
    requires cap >= 1
    requires NewestFirst(xs, time)
    requires |xs| > 0 ==> time(x) >= time(xs[0])
    ensures NewestFirst(PrependCapped(xs, x, cap), time)
    ensures |PrependCapped(xs, x, cap)| <= cap
  {
    var r := PrependCapped(xs, x, cap);
    forall i, j | 0 <= i < j < |r| ensures time(r[i]) >= time(r[j]) {
      assert r[j] == xs[j - 1];
      if i > 0 {
        assert r[i] == xs[i - 1];
      }
    }
  }

  // ---------------------------------------------------------------------------
  // Calls and messages
  // ---------------------------------------------------------------------------

  /**
   * The simulated length of a call, `Math.floor(Math.random() * 300) + 180`
   * seconds, for the draw `roll`.
   */
  function SimulatedCallDuration(roll: real): (d: int)
    requires 0.0 <= roll < 1.0
    ensures 180 <= d <= 479
  {
    Utils.ScaleBelow(roll, 300.0);
    (roll * 300.0).Floor + 180
  }

  /** Every length from 180 to 479 seconds is drawn by some roll. */
  lemma SimulatedCallDurationCoversRange(d: int)
    requires 180 <= d <= 479
    ensures var roll := (d - 180) as real / 300.0;
            0.0 <= roll < 1.0 && SimulatedCallDuration(roll) == d
  {
    var roll := (d - 180) as real / 300.0;
    assert roll * 300.0 == (d - 180) as real;
  }

  /** The result of an operation together with the storage it leaves. */
  datatype Step<T> = Step(value: T, store: CommStore)

  /**
   * `makePhoneCall`: an outgoing call with a simulated length, logged at the
   * front of the caller's log (at most 50 kept). `callId` and `now` stand for
   * the generated id and the clock.
   */
  function MakePhoneCall(store: CommStore, userId: string, contactName: string, contactPhone: string,
                         requestId: Option<string>, roll: real, callId: string, now: Timestamp): (r: Step<CallLog>)
    requires 0.0 <= roll < 1.0
    ensures r.value.direction == Outgoing && r.value.userId == userId && r.value.contactPhone == contactPhone
    ensures 180 <= r.value.duration <= 479 && r.value.duration == SimulatedCallDuration(roll)
    ensures r.value.contactName == contactName && r.value.requestId == requestId
    ensures r.value.timestamp == now && r.value.id == callId
    ensures GetCallLogs(r.store, userId) == PrependCapped(GetCallLogs(store, userId), r.value, CallLogCap)
    ensures forall u :: u != userId ==> GetCallLogs(r.store, u) == GetCallLogs(store, u)
    ensures r.store.sms == store.sms
  {
    var log := CallLog(callId, userId, contactName, contactPhone, Outgoing,
                       SimulatedCallDuration(roll), now, requestId);
    Step(log, store.(calls := store.calls[userId := PrependCapped(GetCallLogs(store, userId), log, CallLogCap)]))
  }

  /** Puts a message at the front of its user's list, keeping at most 100. */
  function StoreSms(store: CommStore, msg: SmsMessage): (r: CommStore)
    ensures GetSmsMessages(r, msg.userId) == PrependCapped(GetSmsMessages(store, msg.userId), msg, SmsCap)
    ensures forall u :: u != msg.userId ==> GetSmsMessages(r, u) == GetSmsMessages(store, u)
    ensures r.calls == store.calls
  {
    store.(sms := store.sms[msg.userId := PrependCapped(GetSmsMessages(store, msg.userId), msg, SmsCap)])
  }

  /** `sendSMS`: a sent message, stored first in the sender's list. */
  function SendSms(store: CommStore, userId: string, contactName: string, contactPhone: string,
                   message: string, requestId: Option<string>, msgId: string, now: Timestamp): (r: Step<SmsMessage>)
    ensures r.value.direction == Sent && r.value.message == message
    ensures r.value.userId == userId && r.value.contactPhone == contactPhone
    ensures r.value.contactName == contactName && r.value.requestId == requestId
    ensures r.value.timestamp == now && r.value.id == msgId
    ensures GetSmsMessages(r.store, userId) == PrependCapped(GetSmsMessages(store, userId), r.value, SmsCap)
    ensures forall u :: u != userId ==> GetSmsMessages(r.store, u) == GetSmsMessages(store, u)
    ensures r.store.calls == store.calls
  {
    var msg := SmsMessage(msgId, userId, contactName, contactPhone, message, Sent, now, requestId);
    Step(msg, StoreSms(store, msg))
  }

  /** The canned answers of the simulated contact. */
  const AutoReplies: seq<string> := [
    "Thanks for the update! I'll be home.",
    "Great, thank you so much!",
    "Perfect timing, see you soon.",
    "Appreciate it! Looking forward to it.",
    "Thank you for helping our family!",
    "That works perfectly, thanks!"
  ]

  /** `simulateIncomingSMS`: a received message, one of the canned answers chosen by `roll`. */
  function SimulateIncomingSms(store: CommStore, userId: string, contactName: string, contactPhone: string,
                               requestId: Option<string>, roll: real, msgId: string, now: Timestamp): (r: Step<SmsMessage>)
    requires 0.0 <= roll < 1.0
    ensures r.value.direction == Received && r.value.message in AutoReplies
    ensures forall i :: 0 <= i < |AutoReplies| && i as real <= roll * 6.0 < (i + 1) as real ==>
              r.value.message == AutoReplies[i]
    ensures r.value.userId == userId && r.value.contactPhone == contactPhone
    ensures r.value.contactName == contactName && r.value.requestId == requestId
    ensures r.value.timestamp == now && r.value.id == msgId
    ensures GetSmsMessages(r.store, userId) == PrependCapped(GetSmsMessages(store, userId), r.value, SmsCap)
    ensures forall u :: u != userId ==> GetSmsMessages(r.store, u) == GetSmsMessages(store, u)
    ensures r.store.calls == store.calls
  {
    Utils.ScaleBelow(roll, |AutoReplies| as real);
    var reply := AutoReplies[(roll * |AutoReplies| as real).Floor];
    var msg := SmsMessage(msgId, userId, contactName, contactPhone, reply, Received, now, requestId);
    Step(msg, StoreSms(store, msg))
  }

  /** Every canned reply is the one some roll selects. */
  lemma SimulateIncomingSmsReachesEvery(store: CommStore, userId: string, contactName: string, contactPhone: string,
                                        requestId: Option<string>, msgId: string, now: Timestamp, i: nat)
    requires i < |AutoReplies|
    ensures var roll := i as real / 6.0;
            0.0 <= roll < 1.0 &&
            SimulateIncomingSms(store, userId, contactName, contactPhone, requestId, roll, msgId, now).value.message
            == AutoReplies[i]
  {
    var roll := i as real / 6.0;
    assert roll * 6.0 == i as real;
  }

  /**
   * `getSMSConversation`: the user's messages with one contact number, in the
   * order they are stored.
   */
  function GetSmsConversation(store: CommStore, userId: string, contactPhone: string): (r: seq<SmsMessage>)
    ensures forall m :: m in r <==> m in GetSmsMessages(store, userId) && m.contactPhone == contactPhone
    ensures IsSubsequence(r, GetSmsMessages(store, userId))
    ensures forall m :: multiset(r)[m] ==
                        if m.contactPhone == contactPhone then multiset(GetSmsMessages(store, userId))[m] else 0
  {
    var p := (m: SmsMessage) => m.contactPhone == contactPhone;
    FilterSpec(GetSmsMessages(store, userId), p);
    FilterMultiplicity(GetSmsMessages(store, userId), p);
    Filter(GetSmsMessages(store, userId), p)
  }

  /** A message just sent or received heads the conversation with its contact. */
  lemma NewMessageOpensConversation(store: CommStore, msg: SmsMessage)
    ensures var c := GetSmsConversation(StoreSms(store, msg), msg.userId, msg.contactPhone);
            |c| > 0 && c[0] == msg
  {
    var xs := GetSmsMessages(store, msg.userId);
    var p := (m: SmsMessage) => m.contactPhone == msg.contactPhone;
    var all := PrependCapped(xs, msg, SmsCap);
    assert all == [msg] + all[1..];
    FilterCons(msg, all[1..], p);
  }

  /** The conversations with other contacts keep (at most) their earlier messages, in order. */
  lemma NewMessageLeavesOtherConversations(store: CommStore, msg: SmsMessage, phone: string)
    requires phone != msg.contactPhone
    ensures IsSubsequence(GetSmsConversation(StoreSms(store, msg), msg.userId, phone),
                          GetSmsMessages(store, msg.userId))
  {
    var xs := GetSmsMessages(store, msg.userId);
    var all := PrependCapped(xs, msg, SmsCap);
    assert all == [msg] + all[1..];
    var q := (m: SmsMessage) => m.contactPhone == phone;
    FilterCons(msg, all[1..], q);
    var c := Filter(all[1..], q);
    FilterSpec(all[1..], q);
    assert GetSmsConversation(StoreSms(store, msg), msg.userId, phone) == c;
    SubsequenceOfPrefix(c, all[1..], xs);
  }

  /** A subsequence of a prefix is a subsequence of the whole. */
  lemma {:induction false} SubsequenceOfPrefix<T(!new)>(sub: seq<T>, pre: seq<T>, xs: seq<T>)
    requires IsSubsequence(sub, pre) && pre <= xs
    ensures IsSubsequence(sub, xs)
  {
    if |sub| > 0 && |pre| > 0 {
      if sub[0] == pre[0] {
        SubsequenceOfPrefix(sub[1..], pre[1..], xs[1..]);
      } else {
        SubsequenceOfPrefix(sub, pre[1..], xs[1..]);
      }
    }
  }

  // ---------------------------------------------------------------------------
  // Formatting
  // ---------------------------------------------------------------------------

  /** This file's own `formatPhoneNumber`: ten digits become "(ddd) ddd-dddd"; anything else is kept. */
  function FormatPhoneNumber(phone: string): (r: string)
    ensures r == Utils.FormatPhoneNumber(phone)
  {
    var cleaned := DigitsOf(phone);
    if |cleaned| == 10 then
      "(" + (cleaned[..3] + (") " + (cleaned[3..6] + ("-" + cleaned[6..]))))
    else phone
  }

  /**
   * `formatCallDuration`: whole minutes (rounded down), a colon, then the
   * remainder seconds padded to two characters. The remainder is JavaScript's
   * `%`, which takes the sign of the dividend.
   */
  function FormatCallDuration(seconds: int): (r: string)
    ensures seconds >= 0 ==> ReadCallDuration(r) == Some(seconds)
  {
    var minutes := seconds / 60;
    var secs := if seconds >= 0 then seconds % 60 else -((-seconds) % 60);
    var text := IntToString(minutes) + ":" + PadStart(IntToString(secs), 2, '0');
    if seconds >= 0 then
      FormatCallDurationReads(seconds);
      text
    else text
  }

  /**
   * Reads "m:ss" back: a run of digits, a colon and exactly two digits below
   * 60; `None` for any other text.
   */
  function ReadCallDuration(s: string): Option<nat>
  {
    var k := LeadingDigits(s);
    LeadingDigitsPrefix(s);
    if 1 <= k && |s| == k + 3 && s[k] == ':' && AllDigits(s[k + 1..]) && ParseNat(s[k + 1..]) < 60
    then Some(60 * ParseNat(s[..k]) + ParseNat(s[k + 1..]))
    else None
  }

  /** Two characters of padding around one remainder below 60 give its two digits. */
  lemma PaddedSeconds(n: nat)
    requires n < 60
    ensures PadStart(IntToString(n), 2, '0') == TwoDigits(n)
  {
    if n < 10 {
      OneDigitPadded(n);
    } else {
      TwoDigitsUnpadded(n);
    }
  }

  lemma OneDigitPadded(n: nat)
    requires n < 10
    ensures PadStart(IntToString(n), 2, '0') == TwoDigits(n)
  {
    var t := NatToString(n);
    assert t == [DigitChar(n)];
    assert PadStart(t, 2, '0') == seq(1, _ => '0') + t;
    assert n / 10 == 0 && n % 10 == n;
    assert DigitChar(0) == '0';
  }

  lemma TwoDigitsUnpadded(n: nat)
    requires 10 <= n < 60
    ensures PadStart(IntToString(n), 2, '0') == TwoDigits(n)
  {
    var t := NatToString(n);
    assert t == NatToString(n / 10) + [DigitChar(n % 10)];
    assert NatToString(n / 10) == [DigitChar(n / 10)];
    assert |t| == 2;
  }

  lemma FormatCallDurationReads(seconds: nat)
    ensures ReadCallDuration(IntToString(seconds / 60) + ":" + PadStart(IntToString(seconds % 60), 2, '0'))
            == Some(seconds)
  {
    var m, sec := seconds / 60, seconds % 60;
    var text := IntToString(m) + ":" + PadStart(IntToString(sec), 2, '0');
    PaddedSeconds(sec);
    assert text == NatToString(m) + ":" + TwoDigits(sec);
    ReadMinutesSeconds(m, TwoDigits(sec));
    assert ReadCallDuration(text) == Some(60 * m + sec);
    assert 60 * m + sec == seconds;
  }

  /** Minutes, a colon and two digits below 60 read back as that many seconds. */
  lemma ReadMinutesSeconds(m: nat, b: string)
    requires |b| == 2 && AllDigits(b) && ParseNat(b) < 60
    ensures ReadCallDuration(NatToString(m) + ":" + b) == Some(60 * m + ParseNat(b))
  {
    var a := NatToString(m);
    var s := a + ":" + b;
    assert s == a + (":" + b);
    LeadingDigitsOfConcat(a, ":" + b);
    assert s[..|a|] == a;
    assert s[|a| + 1..] == b;
    ParseNatToString(m);
  }

  /** Different non-negative lengths never display alike. */
  lemma FormatCallDurationInjective(s1: nat, s2: nat)
    requires FormatCallDuration(s1) == FormatCallDuration(s2)
    ensures s1 == s2
  {
  }
}

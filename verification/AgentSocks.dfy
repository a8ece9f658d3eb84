/** SOCKS4, SOCKS4a and SOCKS5 (RFC 1928, RFC 1929) with a second-level agent. One `char` stands for one byte. */
module AgentSocks {
  import opened Text
  import opened Streams

  const NUL := 0 as char
  /** The address that says a host name follows. */
  const MARKER := [NUL, NUL, NUL, 1 as char]

  datatype Outcome = Granted | Refused | ProtocolError | Unsupported | IoError

  /** A target host as the address parser sees it. */
  datatype Target = V4(octets: string) | V6(octets: string) | HostName(host: string)

  predicate ValidTarget(t: Target) {
    (t.V4? ==> |t.octets| == 4) && (t.V6? ==> |t.octets| == 16)
  }

  datatype Credentials = Credentials(user: string, password: string)

  predicate IsAscii(s: string) {
    forall i :: 0 <= i < |s| ==> s[i] < 128 as char
  }

  function Port(port: nat): (r: string)
    requires port < 0x1_0000
    ensures |r| == 2
  {
    [(port / 256) as char, (port % 256) as char]
  }

  function PortAt(s: string, i: nat): nat
    requires i + 2 <= |s|
  {
    256 * s[i] as nat + s[i + 1] as nat
  }

  // ---------------------------------------------------------------- SOCKS4

  function Request4(user: string, target: Target, port: nat): Option<string>
    requires port < 0x1_0000
  {
    if !IsAscii(user) then None
    else
      match target
      case V4(octets) => Some([4 as char, 1 as char] + Port(port) + octets + user + [NUL])
      case V6(_) => None
      case HostName(host) =>
        if IsAscii(host) then Some([4 as char, 1 as char] + Port(port) + MARKER + user + [NUL] + host + [NUL]) else None
  }

  /** What an exchange comes to: its outcome, how much of the agent's bytes it used, what it sent. */
  datatype Talk = Talk(outcome: Outcome, used: nat, sent: seq<string>)

  function Socks4(s: string, user: string, target: Target, port: nat): Talk
    requires port < 0x1_0000
  {
    match Request4(user, target, port)
    case None => Talk(Unsupported, 0, [])
    case Some(request) =>
      if |s| < 8 then Talk(IoError, 0, [request])
      else Talk(if s[1] == 0x5A as char then Granted else Refused, 8, [request])
  }

  /** The exchange `o` is what `talk` says, and a tunnel starts right behind the bytes it used. */
  twostate predicate Concluded(r: PrefixedReader, w: Sink, o: Outcome, talk: Talk)
    reads r, w
  {
    && old(r.Valid()) && r.Valid()
    && (r.Failed() || w.Failed() ==> o == IoError)
    && (!r.Failed() && !w.Failed() ==> o == talk.outcome && w.writes == old(w.writes) + talk.sent)
    && (o == Granted ==> talk.outcome == Granted && talk.used <= |old(r.Rest())| && r.Rest() == old(r.Rest())[talk.used..])
    && (o == Granted ==> w.writes == old(w.writes) + talk.sent)
  }

  method ConnectSocks4(r: PrefixedReader, w: Sink, target: Target, port: nat, credentials: Option<Credentials>)
    returns (o: Outcome)
    requires r.Valid() && !r.Failed() && !w.Failed() && port < 0x1_0000
    modifies r, w
    ensures Concluded(r, w, o, Socks4(old(r.Rest()), if credentials.Some? then credentials.value.user else "", target, port))
  {
    var user := if credentials.Some? then credentials.value.user else "";
    if !IsAscii(user) {
      return Unsupported;
    }
    var request := [4 as char, 1 as char] + Port(port);
    match target {
      case V4(octets) =>
        request := request + octets + user + [NUL];
      case V6(_) =>
        return Unsupported;
      case HostName(host) =>
        if !IsAscii(host) {
          return Unsupported;
        }
        request := request + MARKER + user + [NUL] + host + [NUL];
    }
    var written := w.WriteAll(request);
    if !written {
      return IoError;
    }
    ghost var all := r.Rest();
    var answer := r.ReadExact(8);
    if answer == None {
      return IoError;
    }
    assert answer.value == all[..8] && r.Rest() == all[8..];
    o := if answer.value[1] == 0x5A as char then Granted else Refused;
  }

  /** What the agent understands of a SOCKS4 request. */
  datatype Asked4 = Asked4(target: Target, port: nat, user: string, len: nat)

  function Decode4(s: string): Option<Asked4> {
    if |s| < 8 || s[..2] != [4 as char, 1 as char] then None
    else
      var user := IndexOf(s[8..], NUL);
      if 8 + user == |s| then None
      else
        var at := 9 + user;
        if s[4..8] == MARKER then
          var host := IndexOf(s[at..], NUL);
          if at + host == |s| then None
          else Some(Asked4(HostName(s[at..at + host]), PortAt(s, 2), s[8..8 + user], at + host + 1))
        else Some(Asked4(V4(s[4..8]), PortAt(s, 2), s[8..8 + user], at))
  }

  lemma PortReadsBack(port: nat)
    requires port < 0x1_0000
    ensures PortAt(Port(port), 0) == port
  {}

  lemma Head4(head: string, port: nat, ip: string, tail: string)
    requires |head| == 2 && |ip| == 4 && port < 0x1_0000
    ensures var s := head + Port(port) + ip + tail;
            |s| == 8 + |tail| && s[..2] == head && s[4..8] == ip && s[8..] == tail && PortAt(s, 2) == port
  {
    var s := head + Port(port) + ip + tail;
    PortReadsBack(port);
    assert s[2] == Port(port)[0] && s[3] == Port(port)[1];
  }

  lemma NoneBefore(s: string, c: char)
    ensures forall i :: 0 <= i < IndexOf(s, c) ==> s[i] != c
  {
    var k := IndexOf(s, c);
    forall i | 0 <= i < k ensures s[i] != c {
      assert s[..k][i] == s[i];
    }
  }

  lemma FirstNul(text: string, rest: string)
    ensures IndexOf(text + [NUL] + rest, NUL) <= |text|
    ensures IndexOf(text + [NUL] + rest, NUL) == |text| <==> NUL !in text
  {
    var s := text + [NUL] + rest;
    NoneBefore(s, NUL);
    if NUL !in text {
      IndexOfConcat(text, NUL, rest);
    } else {
      var p :| 0 <= p < |text| && text[p] == NUL;
      assert s[p] == NUL;
    }
  }

  /**
   The agent reads the request back as it was meant exactly when neither field contains a zero byte and
   the target is not the marker address itself.
   */
  lemma Socks4ReadsBackIff(user: string, target: Target, port: nat, rest: string)
    requires port < 0x1_0000 && ValidTarget(target) && Request4(user, target, port).Some?
    ensures Decode4(Request4(user, target, port).value + rest)
         == Some(Asked4(target, port, user, |Request4(user, target, port).value|))
       <==> NUL !in user && (target.HostName? ==> NUL !in target.host) && target != V4(MARKER)
  {
    hide Decode4, Port;
    if target.V4? {
      AddressReadsBack(user, target.octets, port, rest);
    } else {
      NameReadsBack(user, target.host, port, rest);
    }
  }

  lemma AddressReadsBack(user: string, octets: string, port: nat, rest: string)
    requires port < 0x1_0000 && |octets| == 4
    ensures var request := [4 as char, 1 as char] + Port(port) + octets + user + [NUL];
            Decode4(request + rest) == Some(Asked4(V4(octets), port, user, |request|)) <==> NUL !in user && octets != MARKER
  {
    var head := [4 as char, 1 as char];
    var tail := user + [NUL] + rest;
    Shape4(head + Port(port) + octets, user, rest);
    Head4(head, port, octets, tail);
    hide Port, IndexOf;
    FieldUpToNul(head + Port(port) + octets + tail, 8, user, rest);
  }

  lemma NameReadsBack(user: string, host: string, port: nat, rest: string)
    requires port < 0x1_0000
    ensures var request := [4 as char, 1 as char] + Port(port) + MARKER + user + [NUL] + host + [NUL];
            Decode4(request + rest) == Some(Asked4(HostName(host), port, user, |request|)) <==> NUL !in user && NUL !in host
  {
    var head := [4 as char, 1 as char];
    var behind := host + [NUL] + rest;
    var tail := user + [NUL] + behind;
    Shape4a(head + Port(port) + MARKER, user, host, rest);
    Head4(head, port, MARKER, tail);
    var s := head + Port(port) + MARKER + tail;
    NameFieldsReadBack(s, user, host, port, rest);
  }

  /** Two fields behind an address that marks a host name. */
  lemma NameFieldsReadBack(s: string, user: string, host: string, port: nat, rest: string)
    requires |s| >= 8 && s[..2] == [4 as char, 1 as char] && s[4..8] == MARKER && PortAt(s, 2) == port
    requires s[8..] == user + [NUL] + (host + [NUL] + rest)
    ensures Decode4(s) == Some(Asked4(HostName(host), port, user, 10 + |user| + |host|)) <==> NUL !in user && NUL !in host
  {
    hide IndexOf, PortAt;
    FieldUpToNul(s, 8, user, host + [NUL] + rest);
    if NUL !in user {
      FieldUpToNul(s, 9 + |user|, host, rest);
    }
  }

  /** A field is read up to its first zero byte. */
  lemma FieldUpToNul(s: string, at: nat, text: string, behind: string)
    requires at <= |s| && s[at..] == text + [NUL] + behind
    ensures IndexOf(s[at..], NUL) <= |text| && at + |text| < |s|
    ensures s[at..at + IndexOf(s[at..], NUL)] == text <==> NUL !in text
    ensures NUL !in text ==> IndexOf(s[at..], NUL) == |text| && s[at + |text| + 1..] == behind
  {
    FirstNul(text, behind);
    hide IndexOf;
    assert s[at..at + |text|] == s[at..][..|text|] == text;
    assert s[at + |text| + 1..] == s[at..][|text| + 1..];
  }

  lemma Shape4(head: string, user: string, rest: string)
    ensures head + user + [NUL] + rest == head + (user + [NUL] + rest)
  {}

  lemma Shape4a(head: string, user: string, host: string, rest: string)
    ensures head + user + [NUL] + host + [NUL] + rest == head + (user + [NUL] + (host + [NUL] + rest))
  {}

  // ---------------------------------------------------------------- SOCKS5

  function Offer(credentials: Option<Credentials>): string {
    [5 as char, 1 as char, if credentials.Some? then 2 as char else NUL]
  }

  /** Credentials the user name and password exchange can carry. */
  predicate Encodable(c: Credentials) {
    IsAscii(c.user) && IsAscii(c.password) && |c.user| <= 255 && |c.password| <= 255
  }

  function Auth(c: Credentials): string
    requires Encodable(c)
  {
    [1 as char, |c.user| as char] + c.user + [|c.password| as char] + c.password
  }

  function AddressField(target: Target): Option<string> {
    match target
    case V4(octets) => Some([1 as char] + octets)
    case V6(octets) => Some([4 as char] + octets)
    case HostName(host) => if IsAscii(host) && |host| <= 255 then Some([3 as char, |host| as char] + host) else None
  }

  function Request5(field: string, port: nat): string
    requires port < 0x1_0000
  {
    [5 as char, 1 as char, NUL] + field + Port(port)
  }

  /** The rest of the reply: `n` bytes of bound address and a port, all skipped. */
  function Drained(s: string, at: nat, n: nat, sent: seq<string>): Talk {
    if |s| < at + n + 2 then Talk(IoError, 0, sent) else Talk(Granted, at + n + 2, sent)
  }

  function Reply5(s: string, at: nat, sent: seq<string>): Talk {
    if |s| < at + 4 then Talk(IoError, 0, sent)
    else if s[at] != 5 as char then Talk(ProtocolError, 0, sent)
    else if s[at + 1] != NUL then Talk(Refused, 0, sent)
    else if s[at + 3] == 1 as char then Drained(s, at + 4, 4, sent)
    else if s[at + 3] == 4 as char then Drained(s, at + 4, 16, sent)
    else if s[at + 3] == 3 as char then
      if |s| < at + 5 then Talk(IoError, 0, sent) else Drained(s, at + 5, s[at + 4] as nat, sent)
    else Talk(ProtocolError, 0, sent)
  }

  function Connect5(s: string, at: nat, target: Target, port: nat, sent: seq<string>): Talk
    requires port < 0x1_0000
  {
    match AddressField(target)
    case None => Talk(Unsupported, 0, sent)
    case Some(field) => Reply5(s, at, sent + [Request5(field, port)])
  }

  function Socks5(s: string, target: Target, port: nat, credentials: Option<Credentials>): Talk
    requires port < 0x1_0000
  {
    var sent := [Offer(credentials)];
    if |s| < 2 then Talk(IoError, 0, sent)
    else if s[0] != 5 as char then Talk(ProtocolError, 0, sent)
    else if s[1] == NUL then Connect5(s, 2, target, port, sent)
    else if s[1] != 2 as char || credentials == None || !Encodable(credentials.value) then Talk(Unsupported, 0, sent)
    else
      var authed := sent + [Auth(credentials.value)];
      if |s| < 4 then Talk(IoError, 0, authed)
      else if s[2] != 1 as char then Talk(ProtocolError, 0, authed)
      else if s[3] != NUL then Talk(Refused, 0, authed)
      else Connect5(s, 4, target, port, authed)
  }

  /** The reader stands `at` bytes into what the agent sends. */
  ghost predicate AtByte(r: PrefixedReader, all: string, at: nat)
    reads r
  {
    r.Valid() && !r.Failed() && at <= |all| && r.Rest() == all[at..]
  }

  /** Read `n` bytes at a known position. */
  method Exactly(r: PrefixedReader, ghost all: string, ghost at: nat, n: nat) returns (part: Option<string>)
    requires AtByte(r, all, at)
    modifies r
    ensures r.Valid()
    ensures part.Some? ==> at + n <= |all| && part.value == all[at..at + n] && AtByte(r, all, at + n)
    ensures part == None ==> r.Failed() || |all| < at + n
  {
    part := r.ReadExact(n);
    if part.Some? {
      assert all[at..] == part.value + r.Rest();
      TakenOff(all, at, part.value, r.Rest());
    }
  }

  lemma TakenOff(all: string, at: nat, part: string, rest: string)
    requires at <= |all| && all[at..] == part + rest
    ensures at + |part| <= |all| && all[at..at + |part|] == part && all[at + |part|..] == rest
  {
    assert all[at..at + |part|] == all[at..][..|part|];
    assert all[at + |part|..] == all[at..][|part|..];
  }

  method ConnectSocks5(r: PrefixedReader, w: Sink, target: Target, port: nat, credentials: Option<Credentials>)
    returns (o: Outcome)
    requires r.Valid() && !r.Failed() && !w.Failed() && port < 0x1_0000
    modifies r, w
    ensures Concluded(r, w, o, Socks5(old(r.Rest()), target, port, credentials))
  {
    hide AddressField, Request5, Auth, Encodable, Reply5, Offer;
    ghost var all := r.Rest();
    ghost var start := w.writes;
    assert all[0..] == all;
    var written := w.WriteAll(Offer(credentials));
    if !written {
      return IoError;
    }
    ghost var sent := [Offer(credentials)];
    var greeting := Exactly(r, all, 0, 2);
    if greeting == None {
      return IoError;
    }
    if greeting.value[0] != 5 as char {
      return ProtocolError;
    }
    var at := 2;
    if greeting.value[1] == 2 as char {
      if credentials == None || !Encodable(credentials.value) {
        return Unsupported;
      }
      written := w.WriteAll(Auth(credentials.value));
      if !written {
        return IoError;
      }
      assert start + sent + [Auth(credentials.value)] == start + (sent + [Auth(credentials.value)]);
      sent := sent + [Auth(credentials.value)];
      var answer := Exactly(r, all, 2, 2);
      if answer == None {
        return IoError;
      }
      if answer.value[0] != 1 as char {
        return ProtocolError;
      }
      if answer.value[1] != NUL {
        return Refused;
      }
      at := 4;
    } else if greeting.value[1] != NUL {
      return Unsupported;
    }
    o := RequestTunnel(r, w, target, port, all, at, start, sent);
  }

  method RequestTunnel(r: PrefixedReader, w: Sink, target: Target, port: nat,
                       ghost all: string, at: nat, ghost start: seq<string>, ghost sent: seq<string>)
    returns (o: Outcome)
    requires AtByte(r, all, at) && !w.Failed() && w.writes == start + sent && port < 0x1_0000
    modifies r, w
    ensures var talk := Connect5(all, at, target, port, sent);
            && r.Valid() && (r.Failed() || w.Failed() ==> o == IoError)
            && (!r.Failed() && !w.Failed() ==> o == talk.outcome && w.writes == start + talk.sent)
            && (o == Granted ==> talk.outcome == Granted && AtByte(r, all, talk.used) && w.writes == start + talk.sent)
  {
    hide Request5;
    var field := AddressField(target);
    if field == None {
      return Unsupported;
    }
    var written := w.WriteAll(Request5(field.value, port));
    if !written {
      return IoError;
    }
    assert start + sent + [Request5(field.value, port)] == start + (sent + [Request5(field.value, port)]);
    ghost var done := sent + [Request5(field.value, port)];
    var reply := Exactly(r, all, at, 4);
    if reply == None {
      return IoError;
    }
    if reply.value[0] != 5 as char {
      return ProtocolError;
    }
    if reply.value[1] != NUL {
      return Refused;
    }
    if reply.value[3] == 1 as char {
      o := Drain(r, all, at + 4, 4, done);
    } else if reply.value[3] == 4 as char {
      o := Drain(r, all, at + 4, 16, done);
    } else if reply.value[3] == 3 as char {
      var len := Exactly(r, all, at + 4, 1);
      if len == None {
        return IoError;
      }
      o := Drain(r, all, at + 5, len.value[0] as nat, done);
    } else {
      o := ProtocolError;
    }
  }

  method Drain(r: PrefixedReader, ghost all: string, at: nat, n: nat, ghost sent: seq<string>) returns (o: Outcome)
    requires AtByte(r, all, at)
    modifies r
    ensures r.Valid() && (if r.Failed() then o == IoError else o == Drained(all, at, n, sent).outcome)
    ensures o == Granted ==> AtByte(r, all, Drained(all, at, n, sent).used)
  {
    var bound := Exactly(r, all, at, n + 2);
    o := if bound == None then IoError else Granted;
  }

  // ---------------------------------------------------------------- the agent's side

  datatype Bound = BoundV4(octets: string) | BoundV6(octets: string) | BoundName(name: string)

  predicate ValidBound(b: Bound) {
    match b
    case BoundV4(octets) => |octets| == 4
    case BoundV6(octets) => |octets| == 16
    case BoundName(name) => |name| <= 255
  }

  function BoundField(b: Bound): string
    requires ValidBound(b)
  {
    match b
    case BoundV4(octets) => [1 as char] + octets
    case BoundV6(octets) => [4 as char] + octets
    case BoundName(name) => [3 as char, |name| as char] + name
  }

  /** Everything a granting agent says: its choice of method, its verdict on the credentials, its reply. */
  function GrantingAgent(auth: bool, reserved: char, bound: Bound, port: string): string
    requires ValidBound(bound)
  {
    [5 as char, if auth then 2 as char else NUL] + (if auth then [1 as char, NUL] else [])
    + ([5 as char, NUL, reserved] + BoundField(bound) + port)
  }

  lemma ReplyGrants(s: string, at: nat, reserved: char, bound: Bound, port: string, payload: string, sent: seq<string>)
    requires ValidBound(bound) && |port| == 2
    requires at <= |s| && s[at..] == [5 as char, NUL, reserved] + BoundField(bound) + port + payload
    ensures Reply5(s, at, sent) == Talk(Granted, at + 5 + |BoundField(bound)|, sent)
  {
    var field := BoundField(bound);
    var t := [5 as char, NUL, reserved] + field + port + payload;
    assert |t| == 5 + |field| + |payload|;
    assert s[at] == t[0] && s[at + 1] == t[1] && s[at + 3] == t[3] == field[0] && s[at + 4] == t[4];
    assert bound.BoundName? ==> t[4] == field[1];
  }

  /**
   For every address form of the reply, with or without authentication, the handshake uses up exactly
   what the agent said: the next byte is tunnel payload.
   */
  lemma TunnelStartsAtPayload(target: Target, port: nat, credentials: Option<Credentials>, auth: bool,
                              reserved: char, bound: Bound, boundPort: string, payload: string)
    requires port < 0x1_0000 && AddressField(target).Some? && ValidBound(bound) && |boundPort| == 2
    requires auth ==> credentials.Some? && Encodable(credentials.value)
    ensures var agent := GrantingAgent(auth, reserved, bound, boundPort);
            Socks5(agent + payload, target, port, credentials)
              == Talk(Granted, |agent|, [Offer(credentials)] + (if auth then [Auth(credentials.value)] else [])
                                        + [Request5(AddressField(target).value, port)])
  {
    hide AddressField, Request5, Auth, Encodable, Reply5, Offer, BoundField;
    var agent := GrantingAgent(auth, reserved, bound, boundPort);
    var s := agent + payload;
    var at := if auth then 4 else 2;
    var reply := [5 as char, NUL, reserved] + BoundField(bound) + boundPort;
    assert |agent| == at + 5 + |BoundField(bound)|;
    assert s[0] == 5 as char && s[1] == (if auth then 2 as char else NUL);
    assert auth ==> s[2] == 1 as char && s[3] == NUL;
    assert s[at..] == reply + payload;
    var sent := [Offer(credentials)] + (if auth then [Auth(credentials.value)] else []);
    assert [Offer(credentials)] + [] == [Offer(credentials)];
    ReplyGrants(s, at, reserved, bound, boundPort, payload, sent + [Request5(AddressField(target).value, port)]);
  }

  /** The methods offered: user name and password if there are credentials, else none; and what cannot be sent. */
  lemma OfferIs(user: string, target: Target, port: nat, credentials: Option<Credentials>)
    requires port < 0x1_0000
    ensures credentials.Some? ==> Offer(credentials) == [5 as char, 1 as char, 2 as char]
    ensures credentials == None ==> Offer(credentials) == [5 as char, 1 as char, 0 as char]
    ensures credentials.Some? ==>
              (Encodable(credentials.value) <==>
                 && |credentials.value.user| <= 255 && |credentials.value.password| <= 255
                 && (forall c :: c in credentials.value.user ==> c as int <= 127)
                 && (forall c :: c in credentials.value.password ==> c as int <= 127))
    ensures AddressField(target) == None <==>
              target.HostName? && (|target.host| > 255 || exists c :: c in target.host && c as int > 127)
    ensures Request4(user, target, port) == None <==>
              (exists c :: c in user && c as int > 127) || target.V6?
              || (target.HostName? && exists c :: c in target.host && c as int > 127)
  {
    AsciiIff(user);
    if target.HostName? { AsciiIff(target.host); }
    if credentials.Some? {
      AsciiIff(credentials.value.user);
      AsciiIff(credentials.value.password);
    }
    hide IsAscii;
  }

  /** The bytes of the requests: version, command, port with its high byte first, address. */
  lemma RequestBytes(user: string, host: string, octets: string, port: nat)
    requires port < 0x1_0000 && IsAscii(user) && IsAscii(host) && |octets| == 4
    ensures Request4(user, V4(octets), port)
         == Some([4 as char, 1 as char] + [(port / 256) as char, (port % 256) as char] + octets + user + [0 as char])
    ensures Request4(user, HostName(host), port)
         == Some([4 as char, 1 as char] + [(port / 256) as char, (port % 256) as char]
                 + [0 as char, 0 as char, 0 as char, 1 as char] + user + [0 as char] + host + [0 as char])
    ensures |host| <= 255 && AddressField(HostName(host)).Some? ==>
              Request5(AddressField(HostName(host)).value, port)
                == [5 as char, 1 as char, 0 as char] + ([3 as char, |host| as char] + host)
                   + [(port / 256) as char, (port % 256) as char]
    ensures Request5(AddressField(V4(octets)).value, port)
         == [5 as char, 1 as char, 0 as char] + ([1 as char] + octets) + [(port / 256) as char, (port % 256) as char]
  {}

  lemma AsciiIff(s: string)
    ensures IsAscii(s) <==> forall c :: c in s ==> c as int <= 127
  {
    if IsAscii(s) {
      forall c | c in s ensures c as int <= 127 {
        var i :| 0 <= i < |s| && s[i] == c;
        assert s[i] < 128 as char;
      }
    } else {
      var i :| 0 <= i < |s| && !(s[i] < 128 as char);
      assert s[i] in s;
    }
  }

  /** A SOCKS4 agent grants with the eight bytes of a reply whose second one is 90; everything else it says refuses. */
  lemma Socks4GrantedIff(s: string, user: string, target: Target, port: nat)
    requires port < 0x1_0000 && Request4(user, target, port).Some?
    ensures var talk := Socks4(s, user, target, port);
            && (talk.outcome == Granted <==> |s| >= 8 && s[1] as nat == 90)
            && (talk.outcome == Refused <==> |s| >= 8 && s[1] as nat != 90)
            && (|s| >= 8 ==> talk.used == 8)
  {
    hide Request4;
  }

  /** A SOCKS5 agent has granted the tunnel only if it said so in every message. */
  lemma Socks5GrantedOnlyIf(s: string, target: Target, port: nat, credentials: Option<Credentials>)
    requires port < 0x1_0000 && Socks5(s, target, port, credentials).outcome == Granted
    ensures |s| >= 2 && s[0] as nat == 5 && s[1] as nat in {0, 2}
    ensures s[1] as nat == 2 ==> credentials.Some? && Encodable(credentials.value) && |s| >= 4 && s[2] as nat == 1 && s[3] as nat == 0
    ensures var at := if s[1] as nat == 2 then 4 else 2;
            && |s| >= at + 5 && s[at] as nat == 5 && s[at + 1] as nat == 0 && s[at + 3] as nat in {1, 3, 4}
            && AddressField(target).Some?
            && Socks5(s, target, port, credentials).used
                 == at + 6 + (if s[at + 3] as nat == 1 then 4 else if s[at + 3] as nat == 4 then 16 else 1 + s[at + 4] as nat)
  {
    hide AddressField, Request5, Auth, Offer, Encodable;
  }

  datatype Asked5 = Asked5(target: Target, port: nat, len: nat)

  /** The agent's reader of a connect request. */
  function Decode5(s: string): Option<Asked5> {
    if |s| < 5 || s[..3] != [5 as char, 1 as char, NUL] then None
    else
      var (at, size, kind) :=
        if s[3] == 1 as char then (4, 4, 1) else if s[3] == 4 as char then (4, 16, 4)
        else if s[3] == 3 as char then (5, s[4] as nat, 3) else (0, 0, 0);
      var end := at + size;
      if kind == 0 || |s| < end + 2 then None
      else
        var field := s[at..end];
        Some(Asked5(if kind == 1 then V4(field) else if kind == 4 then V6(field) else HostName(field), PortAt(s, end), end + 2))
  }

  /** Every connect request reads back as the target and port it was built for. */
  lemma Socks5ReadsBack(target: Target, port: nat, rest: string)
    requires port < 0x1_0000 && ValidTarget(target) && AddressField(target).Some?
    ensures var request := Request5(AddressField(target).value, port);
            Decode5(request + rest) == Some(Asked5(target, port, |request|))
  {
    var field := AddressField(target).value;
    var s := Request5(field, port) + rest;
    var end := 3 + |field|;
    assert |s| == end + 2 + |rest| && s[..3] == [5 as char, 1 as char, NUL] && s[3] == field[0] && s[4] == field[1];
    assert s[3..end] == field;
    PortReadsBack(port);
    assert s[end] == Port(port)[0] && s[end + 1] == Port(port)[1];
    match target {
      case V4(octets) => assert s[4..8] == s[3..end][1..] == octets;
      case V6(octets) => assert s[4..20] == s[3..end][1..] == octets;
      case HostName(host) => assert s[5..5 + |host|] == s[3..end][2..] == host;
    }
  }

  /** The agent's reader of the user name and password. */
  function DecodeAuth(s: string): Option<(Credentials, nat)> {
    if |s| < 2 || s[0] != 1 as char then None
    else
      var at := 2 + s[1] as nat;
      if |s| <= at then None
      else
        var end := at + 1 + s[at] as nat;
        if |s| < end then None else Some((Credentials(s[2..at], s[at + 1..end]), end))
  }

  lemma AuthReadsBack(c: Credentials, rest: string)
    requires Encodable(c)
    ensures DecodeAuth(Auth(c) + rest) == Some((c, |Auth(c)|))
  {
    var s := Auth(c) + rest;
    var at := 2 + |c.user|;
    assert s[1] == |c.user| as char && s[at] == |c.password| as char;
    assert s[2..at] == c.user && s[at + 1..at + 1 + |c.password|] == c.password;
  }
}

/**
  The node address parser `KopEventManager.getNode`.

  The endpoint string is matched with `find()` against the pattern
      ^(.*)://\[?([0-9a-zA-Z\-%._:]*)\]?:(-?[0-9]+)
  Group 2 is the host, group 3 the port text. The node id is the Murmur3 hash
  of host + port text (a parameter here), the port is `Integer.parseInt` of the
  port text.

  The pattern is specified declaratively: `IsMatch(s, m)` says that the pattern
  matches a prefix of `s` along the choices recorded in `m`, and `Preferred(a, b)`
  is the order in which Java's backtracking engine tries those choices (greedy
  quantifiers and `?` try the longer alternative first). The match `find()`
  reports is the preferred one, `IsFirstMatch`. The scanner `RegexFind` is proved
  to return exactly that match.
*/
module Endpoint {
  import opened Common

  /** Characters Java's `.` does not match when DOTALL is off. */
  predicate IsLineTerminator(c: char) {
    c == '\n' || c == '\r' || c == '\U{85}' || c == '\U{2028}' || c == '\U{2029}'
  }

  predicate NotLineTerminator(c: char) { !IsLineTerminator(c) }

  /** The character class `[0-9a-zA-Z\-%._:]` of the host group. */
  predicate IsHostChar(c: char) {
    ('0' <= c <= '9') || ('a' <= c <= 'z') || ('A' <= c <= 'Z')
    || c == '-' || c == '%' || c == '.' || c == '_' || c == ':'
  }

  predicate IsDigit(c: char) { '0' <= c <= '9' }

  /** The end of the longest run of characters satisfying `p` that starts at `k`. */
  function RunEnd(s: string, k: nat, p: char -> bool): (e: nat)
    requires k <= |s|
    ensures k <= e <= |s|
    ensures forall j :: k <= j < e ==> p(s[j])
    ensures e < |s| ==> !p(s[e])
    decreases |s| - k
  {
    if k == |s| || !p(s[k]) then k else RunEnd(s, k + 1, p)
  }

  /** Where the host group starts when the scheme group ends at `i`. */
  function HostStart(i: nat, open: bool): nat {
    i + 3 + (if open then 1 else 0)
  }

  /**
    The choices of one way the pattern can match: where group 1 `(.*)` ends,
    whether `\[?` consumed a bracket, where the host group ends, whether `\]?`
    consumed a bracket, whether `-?` consumed a sign, and where `[0-9]+` ends.
  */
  datatype Match = Match(schemeEnd: nat, open: bool, hostEnd: nat, close: bool, neg: bool, portEnd: nat)
  {
    function Colon(): nat { hostEnd + (if close then 1 else 0) }
    function PortStart(): nat { Colon() + 1 }
    function DigitStart(): nat { PortStart() + (if neg then 1 else 0) }
  }

  /** `^(.*)://\[?([host class]*)` matches `s[..h]` with group 1 ending at `i`. */
  ghost predicate HeadMatches(s: string, i: nat, open: bool, h: nat) {
    && i + 3 <= |s|
    && (forall k :: 0 <= k < i ==> !IsLineTerminator(s[k]))
    && s[i] == ':' && s[i + 1] == '/' && s[i + 2] == '/'
    && (open ==> i + 3 < |s| && s[i + 3] == '[')
    && HostStart(i, open) <= h <= |s|
    && (forall k :: HostStart(i, open) <= k < h ==> IsHostChar(s[k]))
  }

  /** `\]?:(-?[0-9]+)` matches from the end of the host group on, as `m` says. */
  ghost predicate TailMatches(s: string, m: Match) {
    && (m.close ==> m.hostEnd < |s| && s[m.hostEnd] == ']')
    && m.Colon() < |s| && s[m.Colon()] == ':'
    && (m.neg ==> m.PortStart() < |s| && s[m.PortStart()] == '-')
    && m.DigitStart() < m.portEnd <= |s|
    && (forall k :: m.DigitStart() <= k < m.portEnd ==> IsDigit(s[k]))
  }

  ghost predicate IsMatch(s: string, m: Match) {
    HeadMatches(s, m.schemeEnd, m.open, m.hostEnd) && TailMatches(s, m)
  }

  /** The backtracking engine tries `a` before `b`. */
  predicate Preferred(a: Match, b: Match) {
    a.schemeEnd > b.schemeEnd
    || (a.schemeEnd == b.schemeEnd &&
        ((a.open && !b.open)
         || (a.open == b.open &&
             (a.hostEnd > b.hostEnd
              || (a.hostEnd == b.hostEnd &&
                  ((a.close && !b.close)
                   || (a.close == b.close &&
                       ((a.neg && !b.neg)
                        || (a.neg == b.neg && a.portEnd > b.portEnd)))))))))
  }

  /** The match `Matcher.find()` reports: the first one the engine reaches. */
  ghost predicate IsFirstMatch(s: string, m: Match) {
    IsMatch(s, m) && forall m' :: IsMatch(s, m') ==> m' == m || Preferred(m, m')
  }

  lemma PreferredIsStrict(a: Match, b: Match)
    ensures Preferred(a, b) ==> a != b && !Preferred(b, a)
  {
  }

  /** There is at most one first match. */
  lemma FirstMatchUnique(s: string, a: Match, b: Match)
    requires IsFirstMatch(s, a) && IsFirstMatch(s, b)
    ensures a == b
  {
    if a != b {
      PreferredIsStrict(a, b);
    }
  }

  /** Tries `\]?:(-?[0-9]+)` after a host group ending at `h`. */
  function TryPort(s: string, i: nat, open: bool, h: nat): (r: Option<Match>)
    requires h <= |s|
    ensures r.Some? ==> r.value.schemeEnd == i && r.value.open == open && r.value.hostEnd == h
    ensures r.Some? ==> TailMatches(s, r.value)
    ensures forall m: Match :: m.schemeEnd == i && m.open == open && m.hostEnd == h && TailMatches(s, m) ==>
              r.Some? && (m == r.value || Preferred(r.value, m))
  {
    var close := h < |s| && s[h] == ']';
    var colon := if close then h + 1 else h;
    if colon < |s| && s[colon] == ':' then
      var sign := colon + 1;
      var neg := sign + 1 < |s| && s[sign] == '-' && IsDigit(s[sign + 1]);
      var digits := if neg then sign + 1 else sign;
      if digits < |s| && IsDigit(s[digits]) then
        Some(Match(i, open, h, close, neg, RunEnd(s, digits, IsDigit)))
      else
        None
    else
      None
  }

  /** Tries host groups ending at `h`, `h - 1`, ... down to the start of the host group. */
  function TryHost(s: string, i: nat, open: bool, h: nat): (r: Option<Match>)
    requires HeadMatches(s, i, open, h)
    ensures r.Some? ==> IsMatch(s, r.value) && r.value.schemeEnd == i && r.value.open == open
    ensures forall m :: IsMatch(s, m) && m.schemeEnd == i && m.open == open && m.hostEnd <= h ==>
              r.Some? && (m == r.value || Preferred(r.value, m))
    decreases h
  {
    match TryPort(s, i, open, h)
    case Some(m) => Some(m)
    case None => if h == HostStart(i, open) then None else TryHost(s, i, open, h - 1)
  }

  /** When group 1 ends at `i`, the optional `[` is taken exactly when it is there. */
  lemma OpenBracketForced(s: string, m: Match)
    requires IsMatch(s, m)
    ensures m.open <==> s[m.schemeEnd + 3] == '['
  {
  }

  /** Every run of characters satisfying `p` from `k` ends no later than the longest one. */
  lemma {:induction false} RunEndMaximal(s: string, k: nat, p: char -> bool, j: nat)
    requires k <= j <= |s|
    requires forall x :: k <= x < j ==> p(s[x])
    ensures j <= RunEnd(s, k, p)
    decreases |s| - k
  {
    if k < j {
      RunEndMaximal(s, k + 1, p, j);
    }
  }

  /** Tries the pattern with group 1 ending at `i`. */
  function TryAt(s: string, i: nat): (r: Option<Match>)
    requires i <= |s|
    requires forall k :: 0 <= k < i ==> !IsLineTerminator(s[k])
    ensures r.Some? ==> IsMatch(s, r.value) && r.value.schemeEnd == i
    ensures r.Some? ==> (r.value.open <==> i + 3 < |s| && s[i + 3] == '[')
    ensures forall m :: IsMatch(s, m) && m.schemeEnd == i ==> r.Some? && (m == r.value || Preferred(r.value, m))
  {
    if i + 3 <= |s| && s[i] == ':' && s[i + 1] == '/' && s[i + 2] == '/' then
      var open := i + 3 < |s| && s[i + 3] == '[';
      var e := RunEnd(s, HostStart(i, open), IsHostChar);
      assert forall m :: IsMatch(s, m) && m.schemeEnd == i ==> m.open == open && m.hostEnd <= e by {
        forall m | IsMatch(s, m) && m.schemeEnd == i
          ensures m.open == open && m.hostEnd <= e
        {
          OpenBracketForced(s, m);
          RunEndMaximal(s, HostStart(i, open), IsHostChar, m.hostEnd);
        }
      }
      TryHost(s, i, open, e)
    else
      None
  }

  /** Tries group 1 ending at `i`, `i - 1`, ..., `0`. */
  function FindFrom(s: string, i: nat): (r: Option<Match>)
    requires i <= |s|
    requires forall k :: 0 <= k < i ==> !IsLineTerminator(s[k])
    ensures r.Some? ==> IsMatch(s, r.value) && r.value.schemeEnd <= i
    ensures forall m :: IsMatch(s, m) && m.schemeEnd <= i ==> r.Some? && (m == r.value || Preferred(r.value, m))
    decreases i
  {
    match TryAt(s, i)
    case Some(m) => Some(m)
    case None => if i == 0 then None else FindFrom(s, i - 1)
  }

  /** `PATTERN.matcher(s).find()`: the first match of the pattern, if any. */
  function RegexFind(s: string): (r: Option<Match>)
    ensures r.Some? ==> IsFirstMatch(s, r.value)
    ensures r.None? <==> forall m :: !IsMatch(s, m)
  {
    var limit := RunEnd(s, 0, NotLineTerminator);
    assert forall m :: IsMatch(s, m) ==> m.schemeEnd <= limit by {
      forall m | IsMatch(s, m) ensures m.schemeEnd <= limit {
        RunEndMaximal(s, 0, NotLineTerminator, m.schemeEnd);
      }
    }
    FindFrom(s, limit)
  }

  /** Group 2 of a match. */
  function HostText(s: string, m: Match): string
    requires IsMatch(s, m)
  {
    s[HostStart(m.schemeEnd, m.open)..m.hostEnd]
  }

  /** Group 3 of a match. */
  function PortText(s: string, m: Match): string
    requires IsMatch(s, m)
  {
    s[m.PortStart()..m.portEnd]
  }

  // ---------------------------------------------------------------------------
  // Integer.parseInt on ASCII decimal text, and Integer.toString

  predicate AllDigits(t: string) {
    forall k :: 0 <= k < |t| ==> IsDigit(t[k])
  }

  function DigitValue(c: char): nat
    requires IsDigit(c)
  {
    (c as int - '0' as int) as nat
  }

  function DigitChar(d: nat): char
    requires d < 10
  {
    ('0' as int + d) as char
  }

  /** The value of a string of decimal digits, most significant first. */
  function DecimalValue(t: string): nat
    requires AllDigits(t)
  {
    if t == [] then 0 else 10 * DecimalValue(t[..|t| - 1]) + DigitValue(t[|t| - 1])
  }

  /**
    `Integer.parseInt(t)`: an optional sign followed by at least one digit, whose
    value is within the range of `int`; `None` is the NumberFormatException.
  */
  function ParseInt(t: string): (r: Option<int32>)
    ensures r.Some? ==> t != [] && (t[0] == '-' ==> r.value <= 0) && (t[0] != '-' ==> r.value >= 0)
    ensures t != [] && AllDigits(t) ==> (r.Some? <==> DecimalValue(t) <= MaxInt32)
    ensures t == [] || t == "-" || t == "+" ==> r.None?
    ensures t != [] && AllDigits(t) && r.Some? ==> r.value as int == DecimalValue(t)
    ensures |t| > 1 && t[0] == '-' && AllDigits(t[1..]) ==>
              (r.Some? <==> DecimalValue(t[1..]) <= -MinInt32) && (r.Some? ==> r.value as int == 0 - DecimalValue(t[1..]))
  {
    if t == [] then None
    else
      var signed := t[0] == '-' || t[0] == '+';
      var digits := if signed then t[1..] else t;
      if digits == [] || !AllDigits(digits) then None
      else
        var v: int := if t[0] == '-' then 0 - DecimalValue(digits) else DecimalValue(digits);
        if MinInt32 <= v <= MaxInt32 then Some(v as int32) else None
  }

  /** Decimal digits of `n`, without leading zeros. */
  function FormatNat(n: nat): (t: string)
    ensures t != [] && AllDigits(t)
  {
    if n < 10 then [DigitChar(n)] else FormatNat(n / 10) + [DigitChar(n % 10)]
  }

  /** `Integer.toString(n)`. */
  function FormatInt(n: int32): (t: string)
    ensures t != []
  {
    if n < 0 then "-" + FormatNat(-(n as int)) else FormatNat(n as int)
  }

  lemma {:induction false} DecimalValueOfFormat(n: nat)
    ensures DecimalValue(FormatNat(n)) == n
  {
    var t := FormatNat(n);
    if n >= 10 {
      assert t[..|t| - 1] == FormatNat(n / 10);
      DecimalValueOfFormat(n / 10);
    }
  }

  /** `Integer.parseInt` inverts `Integer.toString`. */
  lemma ParseFormatRoundTrip(n: int32)
    ensures ParseInt(FormatInt(n)) == Some(n)
  {
    if n < 0 {
      DecimalValueOfFormat(-(n as int));
      assert FormatInt(n)[1..] == FormatNat(-(n as int));
    } else {
      DecimalValueOfFormat(n as int);
    }
  }

  // ---------------------------------------------------------------------------
  // getNode

  /** `org.apache.kafka.common.Node` without a rack. */
  datatype Node = Node(id: int32, host: string, port: int32)

  datatype NodeError =
    | InvalidBrokerString   // checkState(matcher.find(), ...) throws IllegalStateException
    | PortOutOfRange        // Integer.parseInt(port) throws NumberFormatException

  /**
    `KopEventManager.getNode(kopBrokerStr)` with `hash` standing for
    `Murmur3_32Hash.makeHash` of the UTF-8 bytes.
  */
  function GetNode(s: string, hash: string -> int32): (r: Result<Node, NodeError>)
    ensures r == Failure(InvalidBrokerString) <==> forall m :: !IsMatch(s, m)
    ensures r.Success? ==> AllHostChars(r.value.host)
  {
    match RegexFind(s)
    case None => Failure(InvalidBrokerString)
    case Some(m) =>
      var host := HostText(s, m);
      var port := PortText(s, m);
      match ParseInt(port)
      case None => Failure(PortOutOfRange)
      case Some(p) => Success(Node(hash(host + port), host, p))
  }

  /**
    What `getNode` returns, in terms of the pattern: `checkState` fails exactly
    when nothing matches; otherwise host and port text are groups 2 and 3 of
    the first match, and the id is the hash of their concatenation.
  */
  lemma GetNodeSpec(s: string, hash: string -> int32)
    ensures GetNode(s, hash) == Failure(InvalidBrokerString) <==> forall m :: !IsMatch(s, m)
    ensures GetNode(s, hash) == Failure(PortOutOfRange) ==>
              exists m :: IsFirstMatch(s, m) && ParseInt(PortText(s, m)) == None
    ensures GetNode(s, hash).Success? ==>
              exists m :: IsFirstMatch(s, m)
                && GetNode(s, hash).value.host == HostText(s, m)
                && ParseInt(PortText(s, m)) == Some(GetNode(s, hash).value.port)
                && GetNode(s, hash).value.id == hash(HostText(s, m) + PortText(s, m))
  {
    match RegexFind(s)
    case None =>
    case Some(m) =>
      assert IsFirstMatch(s, m);
  }

  /** Text the pattern's port group can capture: `-?[0-9]+`. */
  predicate IsPortText(t: string) {
    t != [] && (if t[0] == '-' then |t| > 1 && AllDigits(t[1..]) else AllDigits(t))
  }

  /** Text group 1 `(.*)` can span: no line terminator. */
  predicate NoLineTerminator(t: string) {
    forall k :: 0 <= k < |t| ==> !IsLineTerminator(t[k])
  }

  predicate AllHostChars(t: string) {
    forall k :: 0 <= k < |t| ==> IsHostChar(t[k])
  }

  /**
    Trailing text that leaves the match alone: it does not start with a digit
    (which would lengthen the port) and has no ':' (which could end a longer host).
  */
  predicate PlainRest(t: string) {
    (forall k :: 0 <= k < |t| ==> t[k] != ':') && (t == [] || !IsDigit(t[0]))
  }

  /** `s` holds `-?[0-9]+` from `start` to `pe`, with the sign exactly when `neg`. */
  ghost predicate PortAt(s: string, start: nat, neg: bool, pe: nat) {
    && start < |s| && (neg <==> s[start] == '-')
    && start + (if neg then 1 else 0) < pe <= |s|
    && (forall k :: start + (if neg then 1 else 0) <= k < pe ==> IsDigit(s[k]))
  }

  /** After the port at `pe`: no digit right away, and no ':' anywhere. */
  ghost predicate RestAt(s: string, pe: nat) {
    && pe <= |s|
    && (pe < |s| ==> !IsDigit(s[pe]))
    && (forall k :: pe <= k < |s| ==> s[k] != ':')
  }

  lemma PortTextAt(s: string, start: nat, port: string)
    requires start + |port| <= |s| && IsPortText(port)
    requires forall k :: 0 <= k < |port| ==> s[start + k] == port[k]
    ensures PortAt(s, start, port[0] == '-', start + |port|)
  {
    var d := if port[0] == '-' then 1 else 0;
    forall k | start + d <= k < start + |port| ensures IsDigit(s[k]) {
      assert s[k] == port[k - start];
      if d == 1 {
        assert port[k - start] == port[1..][k - start - 1];
      }
    }
  }

  lemma RestTextAt(s: string, pe: nat, rest: string)
    requires |s| == pe + |rest| && PlainRest(rest)
    requires forall k :: 0 <= k < |rest| ==> s[pe + k] == rest[k]
    ensures RestAt(s, pe)
  {
    forall k | pe <= k < |s| ensures s[k] != ':' {
      assert s[k] == rest[k - pe];
    }
  }

  /** Once the colon before the port is fixed, the sign and the digit run are forced. */
  lemma PortTailForced(s: string, m: Match, c: nat, neg: bool, pe: nat)
    requires IsMatch(s, m) && m.Colon() == c
    requires PortAt(s, c + 1, neg, pe) && RestAt(s, pe)
    ensures m.neg == neg && m.portEnd <= pe
  {
  }

  /** No "://" starts after `S` when only host characters, brackets and one ':' lie between it and the port. */
  lemma NoLaterSeparator(s: string, S: nat, c: nat, neg: bool, pe: nat)
    requires S + 3 <= c < |s|
    requires s[S + 1] == '/' && s[S + 2] == '/'
    requires forall k :: S + 3 <= k <= c ==> s[k] != '/'
    requires PortAt(s, c + 1, neg, pe) && RestAt(s, pe)
    ensures forall i :: S < i && i + 1 < |s| ==> !(s[i] == ':' && s[i + 1] == '/')
  {
    forall i | S < i && i + 1 < |s| ensures !(s[i] == ':' && s[i + 1] == '/') {
      if i < S + 3 {
        assert s[i] == '/';
      } else if i < c {
        assert s[i + 1] != '/';
      } else if i < pe {
        assert s[i + 1] == '-' || IsDigit(s[i + 1]) || s[i] != ':';
      } else {
        assert s[i] != ':';
      }
    }
  }

  lemma AppendAt(a: string, b: string)
    ensures |a + b| == |a| + |b|
    ensures forall k :: 0 <= k < |a| ==> (a + b)[k] == a[k]
    ensures forall k :: 0 <= k < |b| ==> (a + b)[|a| + k] == b[k]
  {
  }

  /** The preferred match of `scheme://host:port...` is the one that splits it there. */
  lemma PlainFirstMatch(s: string, S: nat, c: nat, neg: bool, pe: nat)
    requires S + 3 <= c < |s|
    requires forall k :: 0 <= k < S ==> !IsLineTerminator(s[k])
    requires s[S] == ':' && s[S + 1] == '/' && s[S + 2] == '/'
    requires forall k :: S + 3 <= k < c ==> IsHostChar(s[k])
    requires s[c] == ':'
    requires PortAt(s, c + 1, neg, pe) && RestAt(s, pe)
    ensures IsFirstMatch(s, Match(S, false, c, false, neg, pe))
  {
    var m0 := Match(S, false, c, false, neg, pe);
    assert IsMatch(s, m0);
    NoLaterSeparator(s, S, c, neg, pe);
    forall m | IsMatch(s, m) ensures m == m0 || Preferred(m0, m) {
      assert m.schemeEnd <= S;
      if m.schemeEnd == S {
        OpenBracketForced(s, m);
        assert !m.open;
        assert m.Colon() <= c;
        assert !m.close;
        if m.hostEnd == c {
          PortTailForced(s, m, c, neg, pe);
        }
      }
    }
  }

  /** The preferred match of `scheme://[host]:port...` is the one that splits it there. */
  lemma BracketedFirstMatch(s: string, S: nat, b: nat, neg: bool, pe: nat)
    requires S + 4 <= b && b + 1 < |s|
    requires forall k :: 0 <= k < S ==> !IsLineTerminator(s[k])
    requires s[S] == ':' && s[S + 1] == '/' && s[S + 2] == '/' && s[S + 3] == '['
    requires forall k :: S + 4 <= k < b ==> IsHostChar(s[k])
    requires b + 1 < |s| && s[b] == ']' && s[b + 1] == ':'
    requires PortAt(s, b + 2, neg, pe) && RestAt(s, pe)
    ensures IsFirstMatch(s, Match(S, true, b, true, neg, pe))
  {
    var m0 := Match(S, true, b, true, neg, pe);
    assert IsMatch(s, m0);
    NoLaterSeparator(s, S, b + 1, neg, pe);
    forall m | IsMatch(s, m) ensures m == m0 || Preferred(m0, m) {
      assert m.schemeEnd <= S;
      if m.schemeEnd == S {
        OpenBracketForced(s, m);
        assert m.open;
        assert m.hostEnd <= b;
        if m.hostEnd == b {
          assert m.close;
          PortTailForced(s, m, b + 1, neg, pe);
        }
      }
    }
  }

  /** `s` is `scheme`, then "://" and `open` more characters, `host`, then `sep`, `port` and `rest`. */
  ghost predicate Layout(s: string, scheme: string, sep: string, host: string, close: string, port: string, rest: string) {
    var h := |scheme| + |sep|;
    var c := h + |host| + |close|;
    var pe := c + |port|;
    && |s| == pe + |rest|
    && (forall k :: 0 <= k < |scheme| ==> s[k] == scheme[k])
    && (forall k :: 0 <= k < |sep| ==> s[|scheme| + k] == sep[k])
    && (forall k :: 0 <= k < |host| ==> s[h + k] == host[k])
    && (forall k :: 0 <= k < |close| ==> s[h + |host| + k] == close[k])
    && (forall k :: 0 <= k < |port| ==> s[c + k] == port[k])
    && (forall k :: 0 <= k < |rest| ==> s[pe + k] == rest[k])
  }

  lemma LayoutOf(scheme: string, sep: string, host: string, close: string, port: string, rest: string)
    ensures Layout(scheme + sep + host + close + port + rest, scheme, sep, host, close, port, rest)
  {
    var t1 := scheme + sep;
    var t2 := t1 + host;
    var t3 := t2 + close;
    var t4 := t3 + port;
    AppendAt(scheme, sep);
    AppendAt(t1, host);
    AppendAt(t2, close);
    AppendAt(t3, port);
    AppendAt(t4, rest);
  }

  /** A piece laid into `s` at `start` is the slice of `s` there. */
  lemma SliceAt(s: string, start: nat, t: string)
    requires start + |t| <= |s|
    requires forall k :: 0 <= k < |t| ==> s[start + k] == t[k]
    ensures s[start..start + |t|] == t
  {
  }

  /** Host characters laid into `s` at `start`. */
  lemma HostCharsAt(s: string, start: nat, host: string)
    requires start + |host| <= |s| && AllHostChars(host)
    requires forall k :: 0 <= k < |host| ==> s[start + k] == host[k]
    ensures forall k :: start <= k < start + |host| ==> IsHostChar(s[k])
  {
    forall k | start <= k < start + |host| ensures IsHostChar(s[k]) {
      assert s[start + (k - start)] == host[k - start];
    }
  }

  /** Where the pieces of `scheme://host:port rest` lie in `s`, character by character. */
  lemma PlainParts(s: string, scheme: string, host: string, port: string, rest: string)
    requires NoLineTerminator(scheme) && AllHostChars(host) && IsPortText(port) && PlainRest(rest)
    requires Layout(s, scheme, "://", host, ":", port, rest)
    ensures var S := |scheme|; var c := S + 3 + |host|; var pe := c + 1 + |port|;
            && S + 3 <= c < |s| && pe == |s| - |rest|
            && (forall k :: 0 <= k < S ==> !IsLineTerminator(s[k]))
            && s[S] == ':' && s[S + 1] == '/' && s[S + 2] == '/'
            && (forall k :: S + 3 <= k < c ==> IsHostChar(s[k]))
            && s[c] == ':'
            && PortAt(s, c + 1, port[0] == '-', pe) && RestAt(s, pe)
            && s[S + 3..c] == host && s[c + 1..pe] == port
  {
    var S := |scheme|;
    var c := S + 3 + |host|;
    var pe := c + 1 + |port|;
    assert s[S] == "://"[0] && s[S + 1] == "://"[1] && s[S + 2] == "://"[2];
    assert s[c] == ":"[0];
    HostCharsAt(s, S + 3, host);
    PortTextAt(s, c + 1, port);
    RestTextAt(s, pe, rest);
    SliceAt(s, S + 3, host);
    SliceAt(s, c + 1, port);
  }

  /** Where the pieces of `scheme://[host]:port rest` lie in `s`, character by character. */
  lemma BracketedParts(s: string, scheme: string, host: string, port: string, rest: string)
    requires NoLineTerminator(scheme) && AllHostChars(host) && IsPortText(port) && PlainRest(rest)
    requires Layout(s, scheme, "://[", host, "]:", port, rest)
    ensures var S := |scheme|; var b := S + 4 + |host|; var pe := b + 2 + |port|;
            && S + 4 <= b && b + 1 < |s| && pe == |s| - |rest|
            && (forall k :: 0 <= k < S ==> !IsLineTerminator(s[k]))
            && s[S] == ':' && s[S + 1] == '/' && s[S + 2] == '/' && s[S + 3] == '['
            && (forall k :: S + 4 <= k < b ==> IsHostChar(s[k]))
            && s[b] == ']' && s[b + 1] == ':'
            && PortAt(s, b + 2, port[0] == '-', pe) && RestAt(s, pe)
            && s[S + 4..b] == host && s[b + 2..pe] == port
  {
    var S := |scheme|;
    var b := S + 4 + |host|;
    var pe := b + 2 + |port|;
    assert s[S] == "://["[0] && s[S + 1] == "://["[1] && s[S + 2] == "://["[2] && s[S + 3] == "://["[3];
    assert s[b] == "]:"[0] && s[b + 1] == "]:"[1];
    HostCharsAt(s, S + 4, host);
    PortTextAt(s, b + 2, port);
    RestTextAt(s, pe, rest);
    SliceAt(s, S + 4, host);
    SliceAt(s, b + 2, port);
  }

  /** The preferred match of `scheme://host:port...` splits it into exactly these parts. */
  lemma PlainSplit(s: string, scheme: string, host: string, port: string, rest: string)
    requires NoLineTerminator(scheme) && AllHostChars(host) && IsPortText(port) && PlainRest(rest)
    requires Layout(s, scheme, "://", host, ":", port, rest)
    ensures var m := Match(|scheme|, false, |scheme| + 3 + |host|, false, port[0] == '-', |s| - |rest|);
            IsFirstMatch(s, m) && HostText(s, m) == host && PortText(s, m) == port
  {
    PlainParts(s, scheme, host, port, rest);
    PlainFirstMatch(s, |scheme|, |scheme| + 3 + |host|, port[0] == '-', |s| - |rest|);
  }

  /** The preferred match of `scheme://[host]:port...` splits it into exactly these parts. */
  lemma BracketedSplit(s: string, scheme: string, host: string, port: string, rest: string)
    requires NoLineTerminator(scheme) && AllHostChars(host) && IsPortText(port) && PlainRest(rest)
    requires Layout(s, scheme, "://[", host, "]:", port, rest)
    ensures var m := Match(|scheme|, true, |scheme| + 4 + |host|, true, port[0] == '-', |s| - |rest|);
            IsFirstMatch(s, m) && HostText(s, m) == host && PortText(s, m) == port
  {
    BracketedParts(s, scheme, host, port, rest);
    BracketedFirstMatch(s, |scheme|, |scheme| + 4 + |host|, port[0] == '-', |s| - |rest|);
  }

  /** `getNode` reads host and port off the first match. */
  lemma GetNodeAt(s: string, m: Match, hash: string -> int32)
    requires IsFirstMatch(s, m) && ParseInt(PortText(s, m)).Some?
    ensures GetNode(s, hash)
            == Success(Node(hash(HostText(s, m) + PortText(s, m)), HostText(s, m), ParseInt(PortText(s, m)).value))
  {
    FirstMatchUnique(s, m, RegexFind(s).value);
  }

  /**
    Round trip: `scheme://host:port` followed by trailing text yields `host`, the
    parsed port, and the hash of host + port text.
  */
  lemma GetNodeRoundTrip(scheme: string, host: string, port: string, rest: string, hash: string -> int32)
    requires NoLineTerminator(scheme) && AllHostChars(host) && IsPortText(port) && PlainRest(rest)
    requires ParseInt(port).Some?
    ensures GetNode(scheme + "://" + host + ":" + port + rest, hash)
            == Success(Node(hash(host + port), host, ParseInt(port).value))
  {
    var s := scheme + "://" + host + ":" + port + rest;
    LayoutOf(scheme, "://", host, ":", port, rest);
    PlainSplit(s, scheme, host, port, rest);
    GetNodeAt(s, Match(|scheme|, false, |scheme| + 3 + |host|, false, port[0] == '-', |s| - |rest|), hash);
  }

  /** Round trip for a bracketed host: `scheme://[host]:port` followed by trailing text. */
  lemma GetNodeBracketedRoundTrip(scheme: string, host: string, port: string, rest: string, hash: string -> int32)
    requires NoLineTerminator(scheme) && AllHostChars(host) && IsPortText(port) && PlainRest(rest)
    requires ParseInt(port).Some?
    ensures GetNode(scheme + "://[" + host + "]:" + port + rest, hash)
            == Success(Node(hash(host + port), host, ParseInt(port).value))
  {
    var s := scheme + "://[" + host + "]:" + port + rest;
    LayoutOf(scheme, "://[", host, "]:", port, rest);
    BracketedSplit(s, scheme, host, port, rest);
    GetNodeAt(s, Match(|scheme|, true, |scheme| + 4 + |host|, true, port[0] == '-', |s| - |rest|), hash);
  }

  /** The port written by `Integer.toString` comes back from `getNode` unchanged. */
  lemma GetNodeFormattedPort(scheme: string, host: string, port: int32, hash: string -> int32)
    requires NoLineTerminator(scheme) && AllHostChars(host)
    ensures GetNode(scheme + "://" + host + ":" + FormatInt(port), hash)
            == Success(Node(hash(host + FormatInt(port)), host, port))
  {
    var t := FormatInt(port);
    if port < 0 {
      assert t[1..] == FormatNat(-(port as int));
    }
    assert IsPortText(t);
    ParseFormatRoundTrip(port);
    assert scheme + "://" + host + ":" + t + "" == scheme + "://" + host + ":" + t;
    GetNodeRoundTrip(scheme, host, t, "", hash);
  }

  /** Without "://" the pattern cannot match and `checkState` fails. */
  lemma GetNodeNeedsSchemeSeparator(s: string, hash: string -> int32)
    requires forall k :: 0 <= k && k + 2 < |s| ==> !(s[k] == ':' && s[k + 1] == '/' && s[k + 2] == '/')
    ensures GetNode(s, hash) == Failure(InvalidBrokerString)
  {
    forall m: Match ensures !IsMatch(s, m) {
    }
  }

  /** Without a ':' followed by a digit (possibly after '-') there is no port group. */
  lemma GetNodeNeedsPort(s: string, hash: string -> int32)
    requires forall k :: 0 <= k && k + 1 < |s| && s[k] == ':' ==>
               !IsDigit(s[k + 1]) && !(s[k + 1] == '-' && k + 2 < |s| && IsDigit(s[k + 2]))
    ensures GetNode(s, hash) == Failure(InvalidBrokerString)
  {
    forall m: Match ensures !IsMatch(s, m) {
      if IsMatch(s, m) {
        PortSeparatorOf(s, m);
      }
    }
  }

  /** Every match has a ':' followed by a digit, or by '-' and a digit. */
  lemma PortSeparatorOf(s: string, m: Match)
    requires IsMatch(s, m)
    ensures m.Colon() + 1 < |s| && s[m.Colon()] == ':'
    ensures IsDigit(s[m.Colon() + 1]) || (s[m.Colon() + 1] == '-' && m.Colon() + 2 < |s| && IsDigit(s[m.Colon() + 2]))
  {
    assert IsDigit(s[m.DigitStart()]);
  }
}

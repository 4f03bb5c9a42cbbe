/**
 Postfix's main.cf as the mail routes of the agent (panel/agent/src/routes/mail.rs) edit and
 read it: SMTP relay, outbound rate limit, TLS levels.
 */
module MailConf {
  import opened Wrappers
  import opened Text
  import opened Lines
  import opened MainCf

  // ---------------------------------------------------------------- who owns which lines

  predicate NotRelay(l: string) {
    && !StartsWith(l, "relayhost") && !StartsWith(l, "smtp_sasl_") && !StartsWith(l, "smtp_tls_")
    && !Contains(l, "# Arcpanel relay")
  }

  predicate NotRate(l: string) {
    && !StartsWith(l, "smtp_destination_rate_delay") && !StartsWith(l, "smtp_extra_recipient_limit")
    && !Contains(l, "# Arcpanel rate limit")
  }

  predicate NotTls(l: string) {
    !StartsWith(l, "smtpd_tls_security_level") && !StartsWith(l, "smtp_tls_security_level")
  }

  predicate IsRelayhost(l: string) { StartsWith(l, "relayhost") }

  predicate IsRateMark(l: string) { Contains(l, "# Arcpanel rate limit:") }

  predicate IsInbound(l: string) { StartsWith(l, "smtpd_tls_security_level") }

  predicate IsOutbound(l: string) { StartsWith(l, "smtp_tls_security_level") }

  // ---------------------------------------------------------------- what is appended

  function RelayLine(host: string, port: nat): string {
    "relayhost = [" + host + "]:" + Decimal(port)
  }

  function CommentLine(): string { "# Arcpanel relay" + " configuration" }

  function AuthLine(): string { "smtp_sasl_" + "auth_enable = yes" }

  function MapsLine(): string { "smtp_sasl_" + ("password_maps = " + "hash:/etc/postfix/sasl_passwd") }

  function OptionsLine(): string { "smtp_sasl_" + "security_options = noanonymous" }

  function LevelLine(): string { "smtp_tls_" + "security_level = encrypt" }

  function CaLine(): string { "smtp_tls_" + ("CAfile = " + "/etc/ssl/certs/ca-certificates.crt") }

  function RelayBlock(host: string, port: nat): seq<string> {
    [CommentLine(), RelayLine(host, port), AuthLine(), MapsLine(), OptionsLine(), LevelLine(), CaLine()]
  }

  function RateLine(rate: string): string { "# Arcpanel rate limit" + ": " + rate }

  function DelayLine(delay: nat): string { "smtp_destination_rate_delay" + " = " + Decimal(delay) + "s" }

  function LimitLine(limit: nat): string { "smtp_extra_recipient_limit" + " = " + Decimal(limit) }

  function RateBlock(rate: string, delay: nat, limit: nat): seq<string> {
    [RateLine(rate), DelayLine(delay), LimitLine(limit)]
  }

  function InLine(level: string): string { "smtpd_tls_security_level = " + level }

  function OutLine(level: string): string { "smtp_tls_security_level = " + level }

  function TlsBlock(inbound: string, outbound: string): seq<string> {
    [InLine(inbound), OutLine(outbound)]
  }

  /** The settings to the letter, the port in digits. */
  lemma BlocksSpelled(host: string, port: nat, inbound: string, outbound: string) returns (digits: string)
    ensures Denotes(digits, port)
    ensures RelayBlock(host, port) == [
              "# Arcpanel relay" + " configuration",
              "relayhost = [" + host + "]:" + digits,
              "smtp_sasl_" + "auth_enable = yes",
              "smtp_sasl_" + ("password_maps = " + "hash:/etc/postfix/sasl_passwd"),
              "smtp_sasl_" + "security_options = noanonymous",
              "smtp_tls_" + "security_level = encrypt",
              "smtp_tls_" + ("CAfile = " + "/etc/ssl/certs/ca-certificates.crt")]
    ensures TlsBlock(inbound, outbound)
         == ["smtpd_tls_security_level = " + inbound, "smtp_tls_security_level = " + outbound]
  {
    digits := Decimal(port);
    DecimalDenotes(port);
  }

  /** The lines each editor takes away, to the letter. */
  lemma TakenExactly(l: string)
    ensures NotRelay(l) <==>
            && (forall p | p in ["relayhost", "smtp_sasl_", "smtp_tls_"] :: !Begins(l, p))
            && !Embeds(l, "# Arcpanel relay")
    ensures NotRate(l) <==>
            && (forall p | p in ["smtp_destination_rate_delay", "smtp_extra_recipient_limit"] :: !Begins(l, p))
            && !Embeds(l, "# Arcpanel rate limit")
    ensures NotTls(l) <==>
            forall p | p in ["smtpd_tls_security_level", "smtp_tls_security_level"] :: !Begins(l, p)
  {
    hide StartsWith, Contains, Embeds, Begins;
    forall p ensures StartsWith(l, p) <==> Begins(l, p) {
      StartsExactly(l, p);
    }
    ContainsEmbeds(l, "# Arcpanel relay");
    ContainsEmbeds(l, "# Arcpanel rate limit");
  }

  // ---------------------------------------------------------------- the readers

  /** `relay_status`; not configured when there is no such line or its value is empty. */
  function RelayStatus(conf: string): string {
    Status(conf, IsRelayhost, '=').GetOr("")
  }

  /** `rate_limit_status`: whether a limit is configured, and which. */
  function RateStatus(conf: string): Option<string> {
    Status(conf, IsRateMark, ':')
  }

  function InboundTls(conf: string): string {
    Status(conf, IsInbound, '=').GetOr("")
  }

  function OutboundTls(conf: string): string {
    Status(conf, IsOutbound, '=').GetOr("")
  }

  // ---------------------------------------------------------------- rates

  const U32_RANGE: nat := 0x1_0000_0000

  /** `parse::<u32>()`. */
  function ParseU32(s: string): Option<nat> {
    var digits := if s != "" && s[0] == '+' then s[1..] else s;
    if digits != "" && AllDigits(digits) && NumberOf(digits) < U32_RANGE then Some(NumberOf(digits)) else None
  }

  function PeriodSeconds(period: string): Option<nat> {
    if period == "hour" then Some(3600) else if period == "day" then Some(86400)
        else if period == "minute" then Some(60) else None
  }

  datatype Rate = Rate(count: nat, seconds: nat)

  /** "N/hour", "N/day" or "N/minute" with N > 0. */
  function ParseRate(rate: string): (r: Option<Rate>)
    ensures r.Some? ==> r.value.count > 0
  {
    var i := FirstChar(rate, '/');
    if i == |rate| || '/' in rate[i + 1..] then None
    else
      var count, seconds := ParseU32(rate[..i]), PeriodSeconds(rate[i + 1..]);
      if count.None? || count.value == 0 || seconds.None? then None else Some(Rate(count.value, seconds.value))
  }

  /** A rate spelled out: a number, with a plus sign or without, and the period. */
  ghost predicate IsRateSpelled(rate: string, plus: bool, digits: string, n: nat, period: string, seconds: nat) {
    && rate == (if plus then "+" else "") + digits + "/" + period
    && digits != "" && Denotes(digits, n) && 0 < n < 0x1_0000_0000
    && (|| (period == "minute" && seconds == 60)
        || (period == "hour" && seconds == 3600)
        || (period == "day" && seconds == 86400))
  }

  lemma CountSpelled(plus: bool, digits: string, n: nat)
    requires digits != "" && Denotes(digits, n) && n < U32_RANGE
    ensures var count := (if plus then "+" else "") + digits; ParseU32(count) == Some(n) && '/' !in count
  {
    NumberExactly(digits, n);
    var count := (if plus then "+" else "") + digits;
    assert IsDigit(digits[0]);
    assert if plus then count[0] == '+' && count[1..] == digits else count == digits;
  }

  lemma CountSpelling(count: string) returns (plus: bool, digits: string)
    requires ParseU32(count).Some?
    ensures count == (if plus then "+" else "") + digits && digits != "" && Denotes(digits, ParseU32(count).value)
    ensures ParseU32(count).value < 0x1_0000_0000
  {
    plus := count != "" && count[0] == '+';
    digits := if plus then count[1..] else count;
    NumberExactly(digits, ParseU32(count).value);
  }

  lemma SpelledRateTaken(rate: string, plus: bool, digits: string, n: nat, period: string, seconds: nat)
    requires IsRateSpelled(rate, plus, digits, n, period, seconds)
    ensures ParseRate(rate) == Some(Rate(n, seconds))
  {
    hide Denotes, ParseU32;
    var count := (if plus then "+" else "") + digits;
    CountSpelled(plus, digits, n);
    assert rate == count + ['/'] + period;
    FirstCharAfter(count, '/', period);
    assert rate[..|count|] == count && rate[|count| + 1..] == period && '/' !in period;
  }

  /** The rates that are taken, and what they are taken for. */
  lemma RateTakenExactly(rate: string, r: Rate)
    ensures ParseRate(rate) == Some(r)
            <==> exists plus, digits, period :: IsRateSpelled(rate, plus, digits, r.count, period, r.seconds)
  {
    hide Denotes, ParseU32;
    if plus, digits, period :| IsRateSpelled(rate, plus, digits, r.count, period, r.seconds) {
      SpelledRateTaken(rate, plus, digits, r.count, period, r.seconds);
    }
    if ParseRate(rate) == Some(r) {
      var i := FirstChar(rate, '/');
      var plus, digits := CountSpelling(rate[..i]);
      assert rate == rate[..i] + ['/'] + rate[i + 1..];
      assert IsRateSpelled(rate, plus, digits, r.count, rate[i + 1..], r.seconds);
    }
  }

  /** The delay written is the period divided by the count, the limit at most 50. */
  lemma RateLinesSay(rate: string, r: Rate) returns (delay: string, limit: string)
    requires r.count > 0
    ensures Denotes(delay, r.seconds / r.count) && Denotes(limit, if r.count < 50 then r.count else 50)
    ensures RateBlock(rate, r.seconds / r.count, Min(r.count, 50))
         == ["# Arcpanel rate limit: " + rate, "smtp_destination_rate_delay = " + delay + "s",
             "smtp_extra_recipient_limit = " + limit]
  {
    delay, limit := Decimal(r.seconds / r.count), Decimal(Min(r.count, 50));
    DecimalDenotes(r.seconds / r.count);
    DecimalDenotes(Min(r.count, 50));
    assert "# Arcpanel rate limit" + ": " == "# Arcpanel rate limit: ";
    assert "smtp_destination_rate_delay" + " = " == "smtp_destination_rate_delay = ";
    assert "smtp_extra_recipient_limit" + " = " == "smtp_extra_recipient_limit = ";
  }

  function Min(a: nat, b: nat): nat {
    if a < b then a else b
  }

  const TLS_LEVELS := {"may", "encrypt", "none"}

  // ---------------------------------------------------------------- the editors

  predicate IsRelayHostValid(host: string, username: string, password: string) {
    && host != "" && '\n' !in host && '\r' !in host && '\0' !in host
    && '\n' !in username && '\0' !in username && '\n' !in password && '\0' !in password
  }

  /**
   The file; `readable` and `writable` say whether the calls of one request succeed, an
   unreadable file counting as empty.
   */
  class Postfix {
    var mainCf: string

    constructor (mainCf: string)
      ensures this.mainCf == mainCf
    {
      this.mainCf := mainCf;
    }

    method Edit(keep: string -> bool, block: seq<string>, readable: bool, writable: bool) returns (ok: bool)
      modifies this
      ensures ok == writable
      ensures mainCf == if ok then Installed(if readable then old(mainCf) else "", keep, block) else old(mainCf)
    {
      var cleaned := Join(Keep(Split(if readable then mainCf else ""), keep));
      ok := writable;
      if ok {
        mainCf := cleaned + "\n" + Written(block);
      }
    }

    method Remove(keep: string -> bool, readable: bool, writable: bool) returns (ok: bool)
      modifies this
      ensures ok == writable
      ensures mainCf == if ok then Removed(if readable then old(mainCf) else "", keep) else old(mainCf)
    {
      ok := writable;
      if ok {
        mainCf := Join(Keep(Split(if readable then mainCf else ""), keep));
      }
    }

    /** `relay_configure`; the password file is written first, and main.cf is left alone if that fails. */
    method RelayConfigure(host: string, port: nat, username: string, password: string,
        saslWritable: bool, readable: bool, writable: bool) returns (ok: bool)
      modifies this
      ensures ok <==> IsRelayHostValid(host, username, password) && saslWritable && writable
      ensures mainCf == if ok then Installed(if readable then old(mainCf) else "", NotRelay, RelayBlock(host, port))
                else old(mainCf)
      ensures ok ==> (RelayStatus(mainCf) == RelayValue(host, port) <==> '=' !in host)
      ensures ok ==> OutboundTls(mainCf) == "encrypt"
    {
      ok := IsRelayHostValid(host, username, password) && saslWritable;
      if ok {
        ok := Edit(NotRelay, RelayBlock(host, port), readable, writable);
        if ok {
          RelaySeen(if readable then old(mainCf) else "", host, port);
        }
      }
    }

    method RelayRemove(readable: bool, writable: bool) returns (ok: bool)
      modifies this
      ensures ok == writable
      ensures mainCf == if ok then Removed(if readable then old(mainCf) else "", NotRelay) else old(mainCf)
      ensures ok ==> RelayStatus(mainCf) == "" && OutboundTls(mainCf) == ""
    {
      ok := Remove(NotRelay, readable, writable);
      if ok {
        RelayGone(if readable then old(mainCf) else "");
      }
    }

    /** `rate_limit_set`: the delay is the period divided by the count, rounded down. */
    method RateLimitSet(rate: string, readable: bool, writable: bool) returns (ok: bool)
      modifies this
      ensures ok <==> ParseRate(rate).Some? && writable
      ensures !ok ==> mainCf == old(mainCf)
      ensures ok ==> var r := ParseRate(rate).value;
                     mainCf == Installed(if readable then old(mainCf) else "", NotRate,
                                         RateBlock(rate, r.seconds / r.count, Min(r.count, 50)))
      ensures ok ==> RateStatus(mainCf) == Some(rate)
    {
      hide ParseRate, RateStatus, RateBlock, NotRate;
      var r := ParseRate(rate);
      if r.None? {
        return false;
      }
      var delay, limit := r.value.seconds / r.value.count, Min(r.value.count, 50);
      ok := Edit(NotRate, RateBlock(rate, delay, limit), readable, writable);
      if ok {
        RateSeen(if readable then old(mainCf) else "", rate, delay, limit);
      }
    }

    method RateLimitRemove(readable: bool, writable: bool) returns (ok: bool)
      modifies this
      ensures ok == writable
      ensures mainCf == if ok then Removed(if readable then old(mainCf) else "", NotRate) else old(mainCf)
      ensures ok ==> RateStatus(mainCf) == None
    {
      ok := Remove(NotRate, readable, writable);
      if ok {
        RateGone(if readable then old(mainCf) else "");
      }
    }

    method TlsEnforce(inbound: string, outbound: string, readable: bool, writable: bool) returns (ok: bool)
      modifies this
      ensures ok <==> inbound in TLS_LEVELS && outbound in TLS_LEVELS && writable
      ensures mainCf ==
                if ok then Installed(if readable then old(mainCf) else "", NotTls, TlsBlock(inbound, outbound))
                else old(mainCf)
      ensures ok ==> InboundTls(mainCf) == inbound && OutboundTls(mainCf) == outbound
    {
      ok := inbound in TLS_LEVELS && outbound in TLS_LEVELS;
      if ok {
        ok := Edit(NotTls, TlsBlock(inbound, outbound), readable, writable);
        if ok {
          TlsSeen(if readable then old(mainCf) else "", inbound, outbound);
        }
      }
    }
  }

  // ---------------------------------------------------------------- the classes of lines

  lemma NothingInEmptyLine(sub: string)
    requires sub != ""
    ensures !Contains("", sub)
  {
    assert forall i: nat | i <= 0 :: !OccursAt("", sub, i);
  }

  lemma RelayClass()
    ensures IgnoresCr(NotRelay) && NotRelay("")
  {
    NothingInEmptyLine("# Arcpanel relay");
    forall l: string ensures NotRelay(DropCr(l)) == NotRelay(l) {
      PrefixIgnoresCr(l, "relayhost");
      PrefixIgnoresCr(l, "smtp_sasl_");
      PrefixIgnoresCr(l, "smtp_tls_");
      ContainsIgnoresCr(l, "# Arcpanel relay");
    }
  }

  lemma RateClass()
    ensures IgnoresCr(NotRate) && NotRate("")
  {
    NothingInEmptyLine("# Arcpanel rate limit");
    forall l: string ensures NotRate(DropCr(l)) == NotRate(l) {
      PrefixIgnoresCr(l, "smtp_destination_rate_delay");
      PrefixIgnoresCr(l, "smtp_extra_recipient_limit");
      ContainsIgnoresCr(l, "# Arcpanel rate limit");
    }
  }

  lemma TlsClass()
    ensures IgnoresCr(NotTls) && NotTls("")
  {
    forall l: string ensures NotTls(DropCr(l)) == NotTls(l) {
      PrefixIgnoresCr(l, "smtpd_tls_security_level");
      PrefixIgnoresCr(l, "smtp_tls_security_level");
    }
  }

  lemma ReaderClasses()
    ensures IgnoresCr(IsRelayhost) && IgnoresCr(IsRateMark) && IgnoresCr(IsInbound) && IgnoresCr(IsOutbound)
    ensures !IsRelayhost("") && !IsRateMark("") && !IsInbound("") && !IsOutbound("")
  {
    NothingInEmptyLine("# Arcpanel rate limit:");
    forall l: string ensures IsRelayhost(DropCr(l)) == IsRelayhost(l) { PrefixIgnoresCr(l, "relayhost"); }
    forall l: string ensures IsRateMark(DropCr(l)) == IsRateMark(l) { ContainsIgnoresCr(l, "# Arcpanel rate limit:"); }
    forall l: string ensures IsInbound(DropCr(l)) == IsInbound(l) { PrefixIgnoresCr(l, "smtpd_tls_security_level"); }
    forall l: string ensures IsOutbound(DropCr(l)) == IsOutbound(l) { PrefixIgnoresCr(l, "smtp_tls_security_level"); }
  }

  lemma LongerPrefix(l: string, shorter: string, longer: string)
    requires shorter <= longer
    ensures StartsWith(l, longer) ==> StartsWith(l, shorter)
  {
  }

  lemma LongerPart(l: string, part: string, rest: string)
    ensures Contains(l, part + rest) ==> Contains(l, part)
  {
    if Contains(l, part + rest) {
      var i: nat :| i <= |l| && OccursAt(l, part + rest, i);
      assert l[i..i + |part|] == l[i..i + |part + rest|][..|part|];
      assert OccursAt(l, part, i);
    }
  }

  /** An editor that drops its own lines drops what the readers of its kind look for. */
  lemma OwnersCover()
    ensures forall l: string :: NotRelay(l) ==> !IsRelayhost(l) && !IsOutbound(l)
    ensures forall l: string :: NotRate(l) ==> !IsRateMark(l)
    ensures forall l: string :: NotTls(l) ==> !IsInbound(l) && !IsOutbound(l)
  {
    forall l: string ensures NotRelay(l) ==> !IsRelayhost(l) && !IsOutbound(l) {
      assert "smtp_tls_security_level"[..9] == "smtp_tls_";
      LongerPrefix(l, "smtp_tls_", "smtp_tls_security_level");
    }
    forall l: string ensures NotRate(l) ==> !IsRateMark(l) {
      assert "# Arcpanel rate limit" + ":" == "# Arcpanel rate limit:";
      LongerPart(l, "# Arcpanel rate limit", ":");
    }
  }

  // ---------------------------------------------------------------- the blocks

  lemma SecondPieceOf(a: string, c: char, b: string)
    requires c !in a
    ensures SecondPiece(a + [c] + b, c) == b[..FirstChar(b, c)]
  {
    FirstCharAfter(a, c, b);
    assert (a + [c] + b)[|a| + 1..] == b;
  }

  predicate IsTrimmed(v: string) {
    v != "" && !IsWhitespace(v[0]) && !IsWhitespace(v[|v| - 1])
  }

  lemma TrimSpaceBefore(v: string)
    requires IsTrimmed(v)
    ensures Trim(" " + v) == v
  {
    assert (" " + v)[1..] == v;
    assert TrimStart(" " + v) == TrimStart(v) == v;
  }

  lemma ValueOf(l: string, name: string, c: char, value: string)
    requires l == name + [c] + " " + value && c !in name && c != ' ' && c !in value && IsTrimmed(value)
    ensures Trim(SecondPiece(l, c)) == value
  {
    assert l == name + [c] + (" " + value);
    SecondPieceOf(name, c, " " + value);
    NoSuchChar(" " + value, c);
    assert (" " + value)[..|" " + value|] == " " + value;
    TrimSpaceBefore(value);
  }

  function RelayValue(host: string, port: nat): string {
    "[" + host + "]:" + Decimal(port)
  }

  lemma RelayValueTrimmed(host: string, port: nat)
    ensures IsTrimmed(RelayValue(host, port))
              && RelayLine(host, port) == "relayhost " + ['='] + " " + RelayValue(host, port)
    ensures '=' !in host ==> '=' !in RelayValue(host, port)
  {
    var value := RelayValue(host, port);
    assert value[|value| - 1] == Decimal(port)[|Decimal(port)| - 1];
  }

  /** The relay line: what the reader makes of it is the relay, unless the host holds an equals sign. */
  lemma RelayLineValue(host: string, port: nat)
    ensures Trim(SecondPiece(RelayLine(host, port), '=')) == RelayValue(host, port) <==> '=' !in host
  {
    hide RelayLine, SecondPiece, Trim, Decimal;
    RelayValueTrimmed(host, port);
    if '=' !in host {
      ValueOf(RelayLine(host, port), "relayhost ", '=', RelayValue(host, port));
    } else {
      var rest := " " + RelayValue(host, port);
      assert "relayhost " + ['='] + " " + RelayValue(host, port) == "relayhost " + ['='] + rest;
      SecondPieceOf("relayhost ", '=', rest);
      HiddenEquals(host, Decimal(port));
      TrimShortens(rest, FirstChar(rest, '='));
    }
  }

  lemma HiddenEquals(host: string, port: string)
    requires '=' in host
    ensures var rest := " " + ("[" + host + "]:" + port); FirstChar(rest, '=') < 2 + |host|
  {
    var rest := " " + ("[" + host + "]:" + port);
    var k :| 0 <= k < |host| && host[k] == '=';
    FirstCharUpTo(rest, '=', 2 + k);
  }

  lemma TrimShortens(rest: string, i: nat)
    requires i <= |rest| && rest != "" && rest[0] == ' '
    ensures |Trim(rest[..i])| <= if i == 0 then 0 else i - 1
  {
    if i > 0 {
      assert TrimStart(rest[..i]) == TrimStart(rest[..i][1..]);
    }
  }

  /** The settings below the relay line: owned by the relay editor and of no interest to most readers. */
  predicate IsRelaySetting(l: string) {
    IsLine(l) && !EndsInCr(l) && '#' !in l && !NotRelay(l) && !IsRelayhost(l) && !IsInbound(l)
  }

  lemma SaslSetting(rest: string)
    requires '\n' !in rest && '#' !in rest && rest != "" && rest[|rest| - 1] != '\r'
    ensures IsRelaySetting("smtp_sasl_" + rest) && !IsOutbound("smtp_sasl_" + rest)
  {
    var l := "smtp_sasl_" + rest;
    assert l[..10] == "smtp_sasl_";
    assert l[|l| - 1] == rest[|rest| - 1];
    assert l[0] == 's' && l[4] == '_' && l[5] == 's';
  }

  lemma TlsSetting(rest: string)
    requires '\n' !in rest && '#' !in rest && rest != "" && rest[|rest| - 1] != '\r'
    ensures IsRelaySetting("smtp_tls_" + rest)
    ensures rest[0] == 'C' ==> !IsOutbound("smtp_tls_" + rest)
  {
    var l := "smtp_tls_" + rest;
    assert l[..9] == "smtp_tls_";
    assert l[|l| - 1] == rest[|rest| - 1] && l[9] == rest[0];
    assert l[0] == 's' && l[4] == '_';
  }

  lemma PlainParts(a: string, b: string)
    requires '\n' !in a && '#' !in a && '\n' !in b && '#' !in b
    ensures '\n' !in a + b && '#' !in a + b
  {
  }

  lemma AuthSetting()
    ensures IsRelaySetting(AuthLine()) && !IsOutbound(AuthLine())
  {
    hide IsRelaySetting, IsOutbound;
    SaslSetting("auth_enable = yes");
  }

  lemma MapsSetting()
    ensures IsRelaySetting(MapsLine()) && !IsOutbound(MapsLine())
  {
    hide IsRelaySetting, IsOutbound;
    PlainParts("password_maps = ", "hash:/etc/postfix/sasl_passwd");
    SaslSetting("password_maps = " + "hash:/etc/postfix/sasl_passwd");
  }

  lemma OptionsSetting()
    ensures IsRelaySetting(OptionsLine()) && !IsOutbound(OptionsLine())
  {
    hide IsRelaySetting, IsOutbound;
    SaslSetting("security_options = noanonymous");
  }

  lemma LevelSetting()
    ensures IsRelaySetting(LevelLine())
  {
    hide IsRelaySetting, IsOutbound;
    TlsSetting("security_level = encrypt");
  }

  lemma CaSetting()
    ensures IsRelaySetting(CaLine())
  {
    hide IsRelaySetting, IsOutbound;
    PlainParts("CAfile = ", "/etc/ssl/certs/ca-certificates.crt");
    TlsSetting("CAfile = " + "/etc/ssl/certs/ca-certificates.crt");
  }

  lemma RelaySettings()
    ensures IsRelaySetting(AuthLine()) && !IsOutbound(AuthLine())
    ensures IsRelaySetting(MapsLine()) && !IsOutbound(MapsLine())
    ensures IsRelaySetting(OptionsLine()) && !IsOutbound(OptionsLine())
    ensures IsRelaySetting(LevelLine()) && IsRelaySetting(CaLine())
  {
    hide IsRelaySetting, IsOutbound, AuthLine, MapsLine, OptionsLine, LevelLine, CaLine;
    AuthSetting();
    MapsSetting();
    OptionsSetting();
    LevelSetting();
    CaSetting();
  }

  lemma CommentText()
    ensures var l := CommentLine(); l != "" && l[0] == '#' && IsLine(l) && !EndsInCr(l) && ':' !in l
  {
    assert '\n' !in "# Arcpanel relay" && '\n' !in " configuration";
    assert ':' !in "# Arcpanel relay" && ':' !in " configuration";
    assert CommentLine()[|CommentLine()| - 1] == 'n';
  }

  lemma CommentOwned()
    ensures !NotRelay(CommentLine())
  {
    assert CommentLine()[..16] == "# Arcpanel relay";
    assert OccursAt(CommentLine(), "# Arcpanel relay", 0);
  }

  lemma HashIsNoReader(l: string)
    requires l != "" && l[0] == '#'
    ensures !IsRelayhost(l) && !IsInbound(l) && !IsOutbound(l)
  {
  }

  lemma RelayComment()
    ensures var l := CommentLine();
            && IsLine(l) && !EndsInCr(l) && !NotRelay(l) && !IsRelayhost(l) && !IsInbound(l) && !IsOutbound(l)
            && ':' !in l
  {
    hide CommentLine, IsLine, EndsInCr, NotRelay, IsRelayhost, IsInbound, IsOutbound;
    CommentText();
    CommentOwned();
    HashIsNoReader(CommentLine());
  }

  lemma RelayLineClass(host: string, port: nat)
    ensures var l := RelayLine(host, port);
            IsRelayhost(l) && !NotRelay(l) && !IsInbound(l) && !IsOutbound(l)
  {
    var l := RelayLine(host, port);
    assert l == "relayhost" + (" = [" + host + "]:" + Decimal(port));
    assert l[..9] == "relayhost" && l[0] == 'r';
  }

  /** A line of an editor's block: owned by the editor, and written as it is read. */
  predicate IsOwnLine(l: string, keep: string -> bool) {
    IsLine(l) && !EndsInCr(l) && !keep(l)
  }

  lemma OwnBlock(block: seq<string>, keep: string -> bool)
    requires block != [] && forall i | 0 <= i < |block| :: IsOwnLine(block[i], keep)
    ensures IsBlock(block) && NoneSatisfies(block, keep)
  {
    forall i | 0 <= i < |block| ensures IsLine(block[i]) && !EndsInCr(block[i]) && !keep(block[i]) {
      assert IsOwnLine(block[i], keep);
    }
  }

  lemma RelayBlockOwned(host: string, port: nat)
    requires '\n' !in host && '\r' !in host
    ensures IsBlock(RelayBlock(host, port)) && NoneSatisfies(RelayBlock(host, port), NotRelay)
  {
    hide CommentLine, AuthLine, MapsLine, OptionsLine, LevelLine, CaLine, RelayLine, IsOwnLine;
    OwnRelayLines(host, port);
    OwnBlock(RelayBlock(host, port), NotRelay);
  }

  lemma OwnRelayLines(host: string, port: nat)
    requires '\n' !in host && '\r' !in host
    ensures IsOwnLine(CommentLine(), NotRelay) && IsOwnLine(RelayLine(host, port), NotRelay)
    ensures IsOwnLine(AuthLine(), NotRelay) && IsOwnLine(MapsLine(), NotRelay) && IsOwnLine(OptionsLine(), NotRelay)
    ensures IsOwnLine(LevelLine(), NotRelay) && IsOwnLine(CaLine(), NotRelay)
  {
    hide CommentLine, AuthLine, MapsLine, OptionsLine, LevelLine, CaLine, RelayLine, NotRelay, IsLine, EndsInCr;
    RelaySettings();
    RelayComment();
    RelayLineClass(host, port);
    RelayLineIsLine(host, port);
  }

  lemma RelayLineIsLine(host: string, port: nat)
    requires '\n' !in host
    ensures IsLine(RelayLine(host, port)) && !EndsInCr(RelayLine(host, port))
  {
    var l := RelayLine(host, port);
    assert l[|l| - 1] == Decimal(port)[|Decimal(port)| - 1];
  }

  lemma RateLineClass(rate: string)
    requires '\n' !in rate && IsTrimmed(rate)
    ensures var l := RateLine(rate);
            && IsLine(l) && !EndsInCr(l) && !NotRate(l) && IsRateMark(l)
            && !IsRelayhost(l) && !IsInbound(l) && !IsOutbound(l)
  {
    var l, part := RateLine(rate), "# Arcpanel rate limit";
    assert l[..21] == part && l[21] == ':' && l[0] == '#' && l[|l| - 1] == rate[|rate| - 1];
    assert l[..22] == "# Arcpanel rate limit:";
    assert OccursAt(l, part, 0) && OccursAt(l, "# Arcpanel rate limit:", 0);
  }

  lemma DelayLineClass(delay: nat)
    ensures var l := DelayLine(delay);
            IsLine(l) && !EndsInCr(l) && !NotRate(l) && !IsRelayhost(l) && !IsInbound(l) && !IsOutbound(l)
  {
    var l := DelayLine(delay);
    assert l[..27] == "smtp_destination_rate_delay" && l[|l| - 1] == 's';
    assert l[0] == 's' && l[4] == '_' && l[5] == 'd';
  }

  lemma LimitLineClass(limit: nat)
    ensures var l := LimitLine(limit);
            IsLine(l) && !EndsInCr(l) && !NotRate(l) && !IsRelayhost(l) && !IsInbound(l) && !IsOutbound(l)
  {
    var l := LimitLine(limit);
    assert l[..26] == "smtp_extra_recipient_limit" && l[|l| - 1] == Decimal(limit)[|Decimal(limit)| - 1];
    assert l[0] == 's' && l[4] == '_' && l[5] == 'e';
  }

  lemma RateBlockClass(rate: string, delay: nat, limit: nat)
    requires '\n' !in rate && IsTrimmed(rate)
    ensures var b := RateBlock(rate, delay, limit);
            && IsBlock(b) && NoneSatisfies(b, NotRate)
            && NoneSatisfies(b, IsRelayhost) && NoneSatisfies(b, IsInbound) && NoneSatisfies(b, IsOutbound)
  {
    hide RateLine, DelayLine, LimitLine, NotRate, IsRelayhost, IsInbound, IsOutbound, IsRateMark, IsLine, EndsInCr;
    RateLineClass(rate);
    DelayLineClass(delay);
    LimitLineClass(limit);
  }

  lemma CountText(count: string)
    requires ParseU32(count).Some?
    ensures count != "" && forall k | 0 <= k < |count| :: count[k] == '+' || IsDigit(count[k])
  {
    forall k | 0 <= k < |count| ensures count[k] == '+' || IsDigit(count[k]) {
      if count[0] == '+' && k > 0 {
        assert count[1..][k - 1] == count[k];
      }
    }
  }

  lemma PeriodText(period: string)
    requires PeriodSeconds(period).Some?
    ensures period != "" && forall k | 0 <= k < |period| :: IsLetter(period[k])
  {
  }

  /** Rates that parse hold nothing that would upset the reader. */
  lemma RateText(rate: string)
    requires ParseRate(rate).Some?
    ensures IsTrimmed(rate) && ':' !in rate && '\n' !in rate
  {
    hide ParseU32, PeriodSeconds;
    var i := FirstChar(rate, '/');
    var count, period := rate[..i], rate[i + 1..];
    CountText(count);
    PeriodText(period);
    assert rate == count + ['/'] + period;
    assert rate[0] == count[0] && rate[|rate| - 1] == period[|period| - 1];
  }

  // ---------------------------------------------------------------- readers after their own editor

  lemma RelayBlockStatus(host: string, port: nat)
    ensures StatusIn(RelayBlock(host, port), IsRelayhost, '=') == Some(Trim(SecondPiece(RelayLine(host, port), '=')))
  {
    hide IsRelayhost, RelayLine, SecondPiece, Trim, IsInbound, IsOutbound, NotRelay;
    hide CommentLine, AuthLine, MapsLine, OptionsLine, LevelLine, CaLine;
    RelayComment();
    RelayLineClass(host, port);
    var b := RelayBlock(host, port);
    FindUnfold(b, IsRelayhost);
    FindUnfold(b[1..], IsRelayhost);
  }

  lemma FindUnfold(lines: seq<string>, p: string -> bool)
    requires lines != []
    ensures Find(lines, p) == if p(lines[0]) then Some(lines[0]) else Find(lines[1..], p)
  {
  }

  lemma EncryptValue()
    ensures IsOutbound(LevelLine()) && Trim(SecondPiece(LevelLine(), '=')) == "encrypt"
  {
    var l := LevelLine();
    assert l[..23] == "smtp_tls_security_level";
    assert l == "smtp_tls_security_level " + ['='] + " " + "encrypt";
    hide SecondPiece, Trim;
    ValueOf(l, "smtp_tls_security_level ", '=', "encrypt");
  }

  lemma RelayBlockOutbound(host: string, port: nat)
    ensures StatusIn(RelayBlock(host, port), IsOutbound, '=') == Some("encrypt")
  {
    hide IsOutbound, IsRelaySetting, RelayLine, SecondPiece, Trim, IsRelayhost, IsInbound, NotRelay;
    hide CommentLine, AuthLine, MapsLine, OptionsLine, LevelLine, CaLine;
    RelayComment();
    RelayLineClass(host, port);
    RelaySettings();
    EncryptValue();
    var b := RelayBlock(host, port);
    var head, tail := b[..5], b[5..];
    assert b == head + tail && tail[0] == b[5];
    assert forall i | 0 <= i < 5 :: head[i] == b[i];
    FindNone(head, IsOutbound);
    StatusInConcat(head, tail, IsOutbound, '=');
    FindUnfold(tail, IsOutbound);
  }

  /** `relay_status` after `relay_configure`: exactly the relay, if and only if the host holds no equals sign. */
  lemma RelaySeen(conf: string, host: string, port: nat)
    requires '\n' !in host && '\r' !in host
    ensures var after := Installed(conf, NotRelay, RelayBlock(host, port));
            && (RelayStatus(after) == RelayValue(host, port) <==> '=' !in host)
            && OutboundTls(after) == "encrypt"
  {
    hide RelayBlock, NotRelay, IsRelayhost, IsOutbound, IgnoresCr, StatusIn, RelayLine, RelayValue;
    RelayBlockOwned(host, port);
    RelayClass();
    ReaderClasses();
    OwnersCover();
    RelayBlockStatus(host, port);
    RelayBlockOutbound(host, port);
    RelayLineValue(host, port);
    StatusOfInstalled(conf, NotRelay, RelayBlock(host, port), IsRelayhost, '=');
    StatusOfInstalled(conf, NotRelay, RelayBlock(host, port), IsOutbound, '=');
  }

  lemma RelayGone(conf: string)
    ensures var after := Removed(conf, NotRelay); RelayStatus(after) == "" && OutboundTls(after) == ""
  {
    ReaderClasses();
    OwnersCover();
    StatusOfRemoved(conf, NotRelay, IsRelayhost, '=');
    StatusOfRemoved(conf, NotRelay, IsOutbound, '=');
  }

  lemma RateLineValue(rate: string)
    requires ':' !in rate && IsTrimmed(rate)
    ensures Trim(SecondPiece(RateLine(rate), ':')) == rate
  {
    hide SecondPiece, Trim;
    assert RateLine(rate) == "# Arcpanel rate limit" + [':'] + " " + rate;
    ValueOf(RateLine(rate), "# Arcpanel rate limit", ':', rate);
  }

  lemma RateBlockStatus(rate: string, delay: nat, limit: nat)
    requires '\n' !in rate && ':' !in rate && IsTrimmed(rate)
    ensures StatusIn(RateBlock(rate, delay, limit), IsRateMark, ':') == Some(rate)
  {
    hide RateLine, DelayLine, LimitLine, IsRateMark, SecondPiece, Trim, IsTrimmed;
    RateLineClass(rate);
    RateLineValue(rate);
    FindUnfold(RateBlock(rate, delay, limit), IsRateMark);
  }

  lemma RateSeen(conf: string, rate: string, delay: nat, limit: nat)
    requires ParseRate(rate).Some?
    ensures RateStatus(Installed(conf, NotRate, RateBlock(rate, delay, limit))) == Some(rate)
  {
    hide RateBlock, NotRate, IsRateMark, IgnoresCr, StatusIn, ParseRate;
    RateText(rate);
    RateBlockClass(rate, delay, limit);
    ReaderClasses();
    OwnersCover();
    RateBlockStatus(rate, delay, limit);
    StatusOfInstalled(conf, NotRate, RateBlock(rate, delay, limit), IsRateMark, ':');
  }

  lemma RateGone(conf: string)
    ensures RateStatus(Removed(conf, NotRate)) == None
  {
    ReaderClasses();
    OwnersCover();
    StatusOfRemoved(conf, NotRate, IsRateMark, ':');
  }

  lemma LevelText(level: string)
    requires level in TLS_LEVELS
    ensures IsTrimmed(level) && level[|level| - 1] != '\r' && '=' !in level && '\n' !in level
  {
  }

  lemma InboundClass(level: string)
    requires IsTrimmed(level) && '\n' !in level
    ensures var l := InLine(level); IsOwnLine(l, NotTls) && IsInbound(l) && !IsOutbound(l) && !IsRelayhost(l)
  {
    var l := InLine(level);
    assert l[..24] == "smtpd_tls_security_level" && l[0] == 's' && l[4] == 'd' && l[|l| - 1] == level[|level| - 1];
  }

  lemma InboundLine(level: string)
    requires IsTrimmed(level) && '=' !in level && '\n' !in level
    ensures var l := InLine(level);
            && IsOwnLine(l, NotTls) && IsInbound(l) && !IsOutbound(l) && !IsRelayhost(l)
            && Trim(SecondPiece(l, '=')) == level
  {
    hide SecondPiece, Trim, IsOwnLine, IsInbound, IsOutbound, IsRelayhost, IsTrimmed;
    InboundClass(level);
    assert InLine(level) == "smtpd_tls_security_level " + ['='] + " " + level;
    ValueOf(InLine(level), "smtpd_tls_security_level ", '=', level);
  }

  lemma OutboundClass(level: string)
    requires IsTrimmed(level) && '\n' !in level
    ensures var l := OutLine(level); IsOwnLine(l, NotTls) && IsOutbound(l) && !IsRelayhost(l)
  {
    var l := OutLine(level);
    assert l[..23] == "smtp_tls_security_level" && l[0] == 's' && l[|l| - 1] == level[|level| - 1];
  }

  lemma OutboundLine(level: string)
    requires IsTrimmed(level) && '=' !in level && '\n' !in level
    ensures var l := OutLine(level);
            && IsOwnLine(l, NotTls) && IsOutbound(l) && !IsRelayhost(l)
            && Trim(SecondPiece(l, '=')) == level
  {
    hide SecondPiece, Trim, IsOwnLine, IsOutbound, IsRelayhost, IsTrimmed;
    OutboundClass(level);
    assert OutLine(level) == "smtp_tls_security_level " + ['='] + " " + level;
    ValueOf(OutLine(level), "smtp_tls_security_level ", '=', level);
  }

  lemma TlsBlockStatus(inbound: string, outbound: string)
    requires inbound in TLS_LEVELS && outbound in TLS_LEVELS
    ensures StatusIn(TlsBlock(inbound, outbound), IsInbound, '=') == Some(inbound)
    ensures StatusIn(TlsBlock(inbound, outbound), IsOutbound, '=') == Some(outbound)
    ensures NoneSatisfies(TlsBlock(inbound, outbound), IsRelayhost)
    ensures IsBlock(TlsBlock(inbound, outbound)) && NoneSatisfies(TlsBlock(inbound, outbound), NotTls)
  {
    hide SecondPiece, Trim, IsRelayhost, IsInbound, IsOutbound, InLine, OutLine, IsOwnLine, IsTrimmed;
    LevelText(inbound);
    LevelText(outbound);
    InboundLine(inbound);
    OutboundLine(outbound);
    var b := TlsBlock(inbound, outbound);
    OwnBlock(b, NotTls);
    FindUnfold(b, IsInbound);
    FindUnfold(b, IsOutbound);
    FindUnfold(b[1..], IsOutbound);
  }

  lemma TlsSeen(conf: string, inbound: string, outbound: string)
    requires inbound in TLS_LEVELS && outbound in TLS_LEVELS
    ensures var after := Installed(conf, NotTls, TlsBlock(inbound, outbound));
            InboundTls(after) == inbound && OutboundTls(after) == outbound
  {
    hide TlsBlock, NotTls, IsInbound, IsOutbound, IgnoresCr, StatusIn;
    TlsBlockStatus(inbound, outbound);
    ReaderClasses();
    OwnersCover();
    StatusOfInstalled(conf, NotTls, TlsBlock(inbound, outbound), IsInbound, '=');
    StatusOfInstalled(conf, NotTls, TlsBlock(inbound, outbound), IsOutbound, '=');
  }

  // ---------------------------------------------------------------- readers after another editor

  /**
   Setting or removing a rate limit leaves the relay and each TLS level alone if and only if
   the first line of its kind does not carry the rate limit comment, or the next line of its
   kind without it says the same.
   */
  lemma RateEditsKeepRelayAndTls(conf: string, rate: string, delay: nat, limit: nat)
    requires ParseRate(rate).Some?
    ensures var after, cleared := Installed(conf, NotRate, RateBlock(rate, delay, limit)), Removed(conf, NotRate);
            && RelayStatus(after) == RelayStatus(cleared) && InboundTls(after) == InboundTls(cleared)
            && OutboundTls(after) == OutboundTls(cleared)
            && (RelayStatus(after) == RelayStatus(conf) <==> FirstStays(conf, NotRate, IsRelayhost, '=', true))
            && (InboundTls(after) == InboundTls(conf) <==> FirstStays(conf, NotRate, IsInbound, '=', true))
            && (OutboundTls(after) == OutboundTls(conf) <==> FirstStays(conf, NotRate, IsOutbound, '=', true))
  {
    RateText(rate);
    RateBlockClass(rate, delay, limit);
    ReaderClasses();
    hide RateBlock, NotRate, IsRelayhost, IsInbound, IsOutbound, IgnoresCr, FirstStays, Status;
    var b := RateBlock(rate, delay, limit);
    RateEditStatus(conf, b, IsRelayhost);
    RateEditStatus(conf, b, IsInbound);
    RateEditStatus(conf, b, IsOutbound);
  }

  lemma RateEditStatus(conf: string, block: seq<string>, p: string -> bool)
    requires IsBlock(block) && IgnoresCr(p) && !p("") && NoneSatisfies(block, p)
    ensures var after := Status(Installed(conf, NotRate, block), p, '=');
            && after.GetOr("") == Status(Removed(conf, NotRate), p, '=').GetOr("")
            && (after.GetOr("") == Status(conf, p, '=').GetOr("") <==> FirstStays(conf, NotRate, p, '=', true))
  {
    hide Installed, Removed, Status, FirstStays, NotRate;
    InstallStatus(conf, NotRate, block, p, '=');
    FindNone(block, p);
    RemoveStatus(conf, NotRate, p, '=');
    InstallDisturbs(conf, NotRate, block, p, '=');
  }

  lemma {:induction false} LastStays(s: string)
    requires s != "" && !IsWhitespace(s[|s| - 1])
    ensures Trim(s) != ""
  {
    if IsWhitespace(s[0]) {
      LastStays(s[1..]);
    }
  }

  /** A relay line that carries the rate limit comment: removing the rate limit removes the relay. */
  lemma RateCommentTakesRelay(host: string)
    requires '=' !in host && '\n' !in host
    ensures var conf := "relayhost = " + host + "# Arcpanel rate limit";
            RelayStatus(conf) != "" && RelayStatus(Removed(conf, NotRate)) == ""
  {
    var mark := "# Arcpanel rate limit";
    var value := " " + (host + mark);
    var conf := "relayhost = " + host + mark;
    hide *;
    assert "relayhost = " == "relayhost " + ['='] + " ";
    assert conf == "relayhost " + ['='] + value;
    MarkedRelayLine(host, mark);
    OneRelayLine(conf, value, mark);
  }

  lemma MarkedRelayLine(host: string, mark: string)
    requires mark == "# Arcpanel rate limit" && '=' !in host && '\n' !in host
    ensures var conf, value := "relayhost = " + host + mark, " " + (host + mark);
            && IsRelayhost(conf) && !NotRate(conf) && '\n' !in value && '=' !in value
            && value != "" && !IsWhitespace(value[|value| - 1])
  {
    var head, conf := "relayhost = " + host, "relayhost = " + host + mark;
    assert "relayhost = "[..9] == "relayhost" && conf[..9] == "relayhost = "[..9];
    assert OccursAt(conf, mark, |head|);
  }

  lemma OneRelayLine(conf: string, value: string, mark: string)
    requires conf == "relayhost " + ['='] + value && IsRelayhost(conf) && !NotRate(conf)
    requires '\n' !in value && '=' !in value && value != "" && !IsWhitespace(value[|value| - 1])
    ensures RelayStatus(conf) != "" && RelayStatus(Removed(conf, NotRate)) == ""
  {
    hide IsRelayhost, NotRate, Trim;
    assert value[|value| - 1] == conf[|conf| - 1];
    SplitLine(conf);
    SecondPieceOf("relayhost ", '=', value);
    NoSuchChar(value, '=');
    assert value[..|value|] == value;
    LastStays(value);
    OneLineStatus(conf);
  }

  lemma OneLineStatus(conf: string)
    requires Split(conf) == [conf] && IsRelayhost(conf) && !NotRate(conf)
    ensures RelayStatus(conf) == Trim(SecondPiece(conf, '=')) && RelayStatus(Removed(conf, NotRate)) == ""
  {
    hide IsRelayhost, NotRate, Trim, SecondPiece, Split;
    FindUnfold([conf], IsRelayhost);
    assert Keep([conf], NotRate) == [];
    NothingJoined();
  }

  lemma NoHashNoMark(l: string)
    requires '#' !in l
    ensures !IsRateMark(l)
  {
    assert "# Arcpanel rate limit:"[0] == '#';
    PartNeedsChars(l, "# Arcpanel rate limit:", 0);
  }

  lemma CommentIsNoMark()
    ensures !IsRateMark(CommentLine())
  {
    hide IsRelayhost, IsInbound, IsOutbound, NotRelay, CommentLine, IsLine, EndsInCr;
    RelayComment();
    assert "# Arcpanel rate limit:"[21] == ':';
    PartNeedsChars(CommentLine(), "# Arcpanel rate limit:", 21);
  }

  lemma SettingIsForeign(l: string)
    requires IsRelaySetting(l)
    ensures !IsRateMark(l) && !IsInbound(l)
  {
    NoHashNoMark(l);
  }

  lemma RelayBlockForeign(host: string, port: nat)
    requires !IsRateMark(RelayLine(host, port))
    ensures NoneSatisfies(RelayBlock(host, port), IsRateMark) && NoneSatisfies(RelayBlock(host, port), IsInbound)
  {
    hide RelayLine, IsRateMark, IsRelayhost, IsInbound, IsOutbound, NotRelay, IsRelaySetting, IsLine, EndsInCr;
    hide CommentLine, AuthLine, MapsLine, OptionsLine, LevelLine, CaLine;
    CommentIsNoMark();
    RelayComment();
    RelayLineClass(host, port);
    RelaySettings();
    SettingIsForeign(AuthLine());
    SettingIsForeign(MapsLine());
    SettingIsForeign(OptionsLine());
    SettingIsForeign(LevelLine());
    SettingIsForeign(CaLine());
  }

  /**
   Removing a relay leaves the rate limit and the inbound TLS level alone if and only if the
   first line of its kind is none of the relay's own, or the next one that is not says the
   same; so does setting one, if the host does not spell the rate limit comment. The
   outbound level they do change: it is a relay setting too.
   */
  lemma RelayEditsKeepRate(conf: string, host: string, port: nat)
    requires '\n' !in host && '\r' !in host
    ensures var after, cleared := Installed(conf, NotRelay, RelayBlock(host, port)), Removed(conf, NotRelay);
            && (RateStatus(cleared) == RateStatus(conf) <==> FirstStays(conf, NotRelay, IsRateMark, ':', false))
            && (!IsRateMark(RelayLine(host, port)) ==> RateStatus(after) == RateStatus(cleared))
            && InboundTls(after) == InboundTls(cleared)
            && (InboundTls(after) == InboundTls(conf) <==> FirstStays(conf, NotRelay, IsInbound, '=', true))
  {
    RelayBlockOwned(host, port);
    ReaderClasses();
    hide RelayBlock, NotRelay, IsRateMark, IsInbound, IgnoresCr, FirstStays, Status, RelayLine;
    var b := RelayBlock(host, port);
    RemoveDisturbs(conf, NotRelay, IsRateMark, ':');
    RelayBlockInbound(host, port);
    InstallDisturbs(conf, NotRelay, b, IsInbound, '=');
    SameAsCleared(conf, NotRelay, b, IsInbound, '=');
    if !IsRateMark(RelayLine(host, port)) {
      RelayBlockForeign(host, port);
      SameAsCleared(conf, NotRelay, b, IsRateMark, ':');
    }
  }

  lemma SameAsCleared(conf: string, keep: string -> bool, block: seq<string>, p: string -> bool, c: char)
    requires IsBlock(block) && IgnoresCr(p) && c != '\r' && !p("") && NoneSatisfies(block, p)
    ensures Status(Installed(conf, keep, block), p, c) == Status(Removed(conf, keep), p, c)
  {
    hide Installed, Removed, Status;
    InstallStatus(conf, keep, block, p, c);
    FindNone(block, p);
    RemoveStatus(conf, keep, p, c);
  }

  lemma RelayBlockInbound(host: string, port: nat)
    ensures NoneSatisfies(RelayBlock(host, port), IsInbound)
  {
    hide RelayLine, IsRateMark, IsRelayhost, IsInbound, IsOutbound, NotRelay, IsRelaySetting, IsLine, EndsInCr;
    hide CommentLine, AuthLine, MapsLine, OptionsLine, LevelLine, CaLine;
    RelayComment();
    RelayLineClass(host, port);
    RelaySettings();
    SettingIsForeign(AuthLine());
    SettingIsForeign(MapsLine());
    SettingIsForeign(OptionsLine());
    SettingIsForeign(LevelLine());
    SettingIsForeign(CaLine());
  }

  /**
   Where no rate limit is set, configuring a relay makes one appear exactly if the host
   spells the rate limit comment in the relay line.
   */
  lemma HostSpellsRateLimit(conf: string, host: string, port: nat)
    requires '\n' !in host && '\r' !in host && RateStatus(conf) == None
    ensures RateStatus(Installed(conf, NotRelay, RelayBlock(host, port))) == None <==>
              !IsRateMark(RelayLine(host, port))
  {
    hide RelayLine, RelayBlock, IsRateMark, NotRelay, IgnoresCr, Installed;
    RelayBlockOwned(host, port);
    ReaderClasses();
    InstallStatus(conf, NotRelay, RelayBlock(host, port), IsRateMark, ':');
    FirstSurvives(Split(conf), NotRelay, IsRateMark);
    MarkInBlock(host, port);
  }

  lemma MarkInBlock(host: string, port: nat)
    ensures StatusIn(RelayBlock(host, port), IsRateMark, ':') == None <==> !IsRateMark(RelayLine(host, port))
  {
    hide RelayLine, IsRateMark, CommentLine, AuthLine, MapsLine, OptionsLine, LevelLine, CaLine;
    var b := RelayBlock(host, port);
    CommentIsNoMark();
    FindUnfold(b, IsRateMark);
    FindUnfold(b[1..], IsRateMark);
    if !IsRateMark(RelayLine(host, port)) {
      RelayBlockForeign(host, port);
      FindNone(b, IsRateMark);
    }
  }

  lemma RelayhostIsNotTls(l: string)
    requires IsRelayhost(l)
    ensures NotTls(l)
  {
    assert l[0] == 'r';
  }

  /** TLS edits never change the relay status. */
  lemma TlsEditsKeepRelay(conf: string, inbound: string, outbound: string)
    requires inbound in TLS_LEVELS && outbound in TLS_LEVELS
    ensures RelayStatus(Installed(conf, NotTls, TlsBlock(inbound, outbound))) == RelayStatus(conf)
  {
    TlsBlockStatus(inbound, outbound);
    ReaderClasses();
    hide TlsBlock, NotTls, IsRelayhost, IgnoresCr;
    forall i | 0 <= i < |Split(conf)| && IsRelayhost(Split(conf)[i]) ensures NotTls(Split(conf)[i]) {
      RelayhostIsNotTls(Split(conf)[i]);
    }
    InstallKeepsStatus(conf, NotTls, TlsBlock(inbound, outbound), IsRelayhost, '=');
  }

  // ---------------------------------------------------------------- remove after set

  /**
   Relay and rate limit: a removal after a setting writes the bytes a removal alone writes,
   exactly if no foreign line ends in "\r".
   */
  lemma RemoveAfterSet(conf: string, host: string, port: nat, rate: string, delay: nat, limit: nat)
    requires '\n' !in host && '\r' !in host && ParseRate(rate).Some?
    ensures Removed(Installed(conf, NotRelay, RelayBlock(host, port)), NotRelay) == Removed(conf, NotRelay)
            <==> NoCr(Cleaned(conf, NotRelay))
    ensures Removed(Installed(conf, NotRate, RateBlock(rate, delay, limit)), NotRate) == Removed(conf, NotRate)
            <==> NoCr(Cleaned(conf, NotRate))
  {
    RelayBlockOwned(host, port);
    RelayClass();
    RateText(rate);
    RateBlockClass(rate, delay, limit);
    RateClass();
    hide RelayBlock, RateBlock, NotRelay, NotRate, IgnoresCr;
    RemoveAfterInstall(conf, NotRelay, RelayBlock(host, port));
    RemoveAfterInstall(conf, NotRate, RateBlock(rate, delay, limit));
  }

  /** Of two settings of one kind the last decides the whole file, exactly if no foreign line ends in "\r". */
  lemma LastSettingWins(conf: string, host: string, port: nat, inbound: string, outbound: string,
      rate: string, delay: nat, limit: nat, later: seq<string>)
    requires '\n' !in host && '\r' !in host && inbound in TLS_LEVELS && outbound in TLS_LEVELS && ParseRate(rate).Some?
    ensures Installed(Installed(conf, NotRelay, RelayBlock(host, port)), NotRelay, later) ==
              Installed(conf, NotRelay, later)
            <==> NoCr(Cleaned(conf, NotRelay))
    ensures Installed(Installed(conf, NotRate, RateBlock(rate, delay, limit)), NotRate, later) ==
              Installed(conf, NotRate, later)
            <==> NoCr(Cleaned(conf, NotRate))
    ensures Installed(Installed(conf, NotTls, TlsBlock(inbound, outbound)), NotTls, later) ==
              Installed(conf, NotTls, later)
            <==> NoCr(Cleaned(conf, NotTls))
  {
    hide RelayBlock, RateBlock, TlsBlock, NotRelay, NotRate, NotTls, IgnoresCr, ParseRate, Installed, Cleaned;
    RelayBlockOwned(host, port);
    RelayClass();
    RateText(rate);
    RateBlockClass(rate, delay, limit);
    RateClass();
    TlsBlockStatus(inbound, outbound);
    TlsClass();
    InstallTwice(conf, NotRelay, RelayBlock(host, port), later);
    InstallTwice(conf, NotRate, RateBlock(rate, delay, limit), later);
    InstallTwice(conf, NotTls, TlsBlock(inbound, outbound), later);
  }
}

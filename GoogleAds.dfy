/**
 * The offline-conversion record that `GoogleAdsService` uploads: which fields are
 * set from a raw lead and with what defaults, how e-mail addresses and phone numbers
 * are normalised before hashing, and how the conversion time is rendered at UTC+3.
 *
 * SHA-256 is kept symbolic: a digest is represented by the string it was computed
 * from, so every statement about hashes here is a statement about those strings.
 */
module GoogleAds {
  import opened Wrappers
  import opened Json
  import opened Text
  import opened Calendar

  // ------------------------------------------------------------------ conversion types

  /** `GoogleAdsService.ConversionType`: a conversion-action name with a default value. */
  datatype ConversionType = MessageReceived | AppointmentMade | ConvertedLead {
    function ConversionName(): string {
      match this
      case MessageReceived => "kommo_message_received"
      case AppointmentMade => "appointment_made"
      case ConvertedLead => "converted_lead"
    }

    function DefaultConversionValue(): int {
      match this
      case MessageReceived => 5
      case AppointmentMade => 40
      case ConvertedLead => 500
    }
  }

  /** The table: three distinct action names, defaults 5, 40 and 500. */
  lemma ConversionTypeTable(a: ConversionType, b: ConversionType)
    ensures a.ConversionName() == b.ConversionName() <==> a == b
    ensures a.DefaultConversionValue() in {5, 40, 500}
    ensures a.DefaultConversionValue() == b.DefaultConversionValue() <==> a == b
  {
  }

  // ------------------------------------------------------------------ hashing

  /** `hashlib.sha256(x.encode()).hexdigest()`, represented by its input. */
  datatype Digest = Sha256Hex(preimage: string)

  /** `_normalize_and_hash`: SHA-256 of the stripped, lower-cased string. */
  function NormalizeAndHash(s: string): (d: Digest)
    ensures IsLowered(d.preimage) && NoEdgeSpace(d.preimage)
  {
    Sha256Hex(StripLower(s))
  }

  /** Hashing what was already normalised hashes the same string again. */
  lemma NormalizeAndHashStable(s: string)
    ensures NormalizeAndHash(NormalizeAndHash(s).preimage) == NormalizeAndHash(s)
  {
    StripLowerIdempotent(s);
  }

  /** `re.match(r"^(gmail|googlemail)\.com$", d)`; Python's `$` also matches before a final newline. */
  predicate IsGmailDomain(d: string) {
    d == "gmail.com" || d == "googlemail.com" || d == "gmail.com\n" || d == "googlemail.com\n"
  }

  /** `s.replace(".", "")`. */
  function RemoveDots(s: string): string {
    Replace(s, ".", "")
  }

  /**
   * The string `_normalize_and_hash_email_address` passes on to `_normalize_and_hash`:
   * stripped and lower-cased, and with every '.' removed from the part before the
   * first '@' when the part after it is a Gmail domain.
   */
  function NormalizedEmail(email: string): string {
    var normalized := StripLower(email);
    var parts := Split(normalized, '@');
    if |parts| > 1 && IsGmailDomain(parts[1]) then
      Join(parts[0 := RemoveDots(parts[0])], '@')
    else
      normalized
  }

  /** `_normalize_and_hash_email_address`: what it hashes is stripped and lower-cased. */
  function NormalizeAndHashEmail(email: string): (d: Digest)
    ensures IsLowered(d.preimage) && NoEdgeSpace(d.preimage)
  {
    NormalizeAndHash(NormalizedEmail(email))
  }

  /** Hashing a string that is already stripped and lower-cased hashes that very string. */
  lemma HashOfNormalized(n: string)
    requires IsLowered(n) && NoEdgeSpace(n)
    ensures NormalizeAndHash(n).preimage == n
  {
    StripSpec(n);
    LowerSpec(n);
  }

  /** Replacing the first part of a split string keeps the rest of it verbatim. */
  lemma {:induction false} SplitReplaceHead(s: string, x: string)
    requires |Split(s, '@')| > 1
    ensures var parts := Split(s, '@');
            var rest := Join(parts[1..], '@');
            && s == parts[0] + "@" + rest
            && Split(rest, '@') == parts[1..]
            && Join(parts[0 := x], '@') == x + "@" + rest
  {
    var parts := Split(s, '@');
    var rest := Join(parts[1..], '@');
    JoinSplit(s, '@');
    assert s == parts[0] + "@" + rest;
    SplitFirst(parts[0], '@', rest);
    assert [parts[0]] + Split(rest, '@') == parts;
    assert parts[0 := x][1..] == parts[1..];
  }

  /** The string the Gmail branch builds, before it is stripped and lowered again. */
  lemma GmailRebuilt(email: string) returns (d: string, rest: string)
    requires var parts := Split(StripLower(email), '@'); |parts| > 1 && IsGmailDomain(parts[1])
    ensures NormalizedEmail(email) == d + "@" + rest
    ensures StripLower(email) == Split(StripLower(email), '@')[0] + "@" + rest
    ensures d == RemoveDots(Split(StripLower(email), '@')[0])
    ensures Split(rest, '@') == Split(StripLower(email), '@')[1..]
  {
    var n := StripLower(email);
    var parts := Split(n, '@');
    d := RemoveDots(parts[0]);
    rest := Join(parts[1..], '@');
    SplitReplaceHead(n, d);
  }

  lemma ConcatAssoc(a: string, b: string, c: string)
    ensures a + b + c == a + (b + c)
  {
  }

  /** `strip()` of `d@rest`, where `rest` ends in a non-space, only trims the front of `d`. */
  lemma StripHeadOnly(d: string, rest: string)
    requires rest != [] && !IsSpace(rest[|rest| - 1])
    ensures Strip(d + "@" + rest) == TrimStart(d) + "@" + rest
  {
    var tail := "@" + rest;
    assert tail[0] == '@';
    TrimStartConcat(d, tail);
    var t := TrimStart(d) + tail;
    assert t[|t| - 1] == rest[|rest| - 1];
    assert TrimEnd(t) == t;
    ConcatAssoc(TrimStart(d), "@", rest);
    ConcatAssoc(d, "@", rest);
  }

  /** Every character of a lower-cased string is its own lower case. */
  lemma LoweredChar(s: string, c: char)
    requires IsLowered(s) && c in s
    ensures LowerChar(c) == c
  {
  }

  /** Characters taken from a lower-cased string, joined by '@', are lower-cased. */
  lemma LoweredAround(n: string, a: string, b: string)
    requires IsLowered(n)
    requires forall c :: c in a ==> c in n
    requires forall c :: c in b ==> c in n
    ensures IsLowered(a + "@" + b)
  {
    var m := a + "@" + b;
    forall i | 0 <= i < |m| ensures LowerChar(m[i]) == m[i] {
      if i < |a| {
        assert m[i] == a[i];
        LoweredChar(n, m[i]);
      } else if i > |a| {
        assert m[i] == b[i - |a| - 1];
        LoweredChar(n, m[i]);
      }
    }
  }

  /** On a Gmail address, the hashed string is the dot-free local part (trimmed) and the rest verbatim. */
  lemma GmailBranch(email: string) returns (local: string, rest: string)
    requires var parts := Split(StripLower(email), '@'); |parts| > 1 && IsGmailDomain(parts[1])
    ensures NormalizeAndHashEmail(email).preimage == local + "@" + rest
    ensures '.' !in local && '@' !in local
    ensures local == TrimStart(RemoveDots(Split(StripLower(email), '@')[0]))
    ensures Split(rest, '@') == Split(StripLower(email), '@')[1..]
  {
    var n := StripLower(email);
    var p0 := Split(n, '@')[0];
    var d;
    d, rest := GmailRebuilt(email);
    DeleteCharSpec(p0, '.');
    local := TrimStart(d);
    assert rest != [] by {
      assert Split(rest, '@') != [[]];
    }
    assert n[|n| - 1] == rest[|rest| - 1];
    StripHeadOnly(d, rest);
    var m := local + "@" + rest;
    forall c | c in local ensures c in n {
      assert c in d;
    }
    LoweredAround(n, local, rest);
    assert NoEdgeSpace(m) by {
      StripSpec(d + "@" + rest);
    }
    LowerSpec(m);
  }

  /** An address whose local part has no dot and whose domain is a Gmail one is left as it is. */
  lemma GmailAddressFixed(p: string, local: string, rest: string)
    requires IsLowered(p) && NoEdgeSpace(p)
    requires p == local + "@" + rest && '.' !in local && '@' !in local
    requires |Split(rest, '@')| > 0 && IsGmailDomain(Split(rest, '@')[0])
    ensures NormalizedEmail(p) == p
  {
    HashOfNormalized(p);
    SplitFirst(local, '@', rest);
    var parts := Split(p, '@');
    assert parts == [local] + Split(rest, '@');
    DeleteCharSpec(local, '.');
    assert parts[0 := RemoveDots(parts[0])] == parts;
    JoinSplit(p, '@');
  }

  /** On the Gmail branch the hashed string is a fixed point of the e-mail normaliser. */
  lemma GmailFixedPoint(email: string)
    requires var parts := Split(StripLower(email), '@'); |parts| > 1 && IsGmailDomain(parts[1])
    ensures var p := NormalizeAndHashEmail(email).preimage; NormalizedEmail(p) == p
  {
    var local, rest := GmailBranch(email);
    GmailAddressFixed(NormalizeAndHashEmail(email).preimage, local, rest);
  }

  /** Off the Gmail branch the hashed string is the stripped, lower-cased address, again a fixed point. */
  lemma OtherFixedPoint(email: string)
    requires var parts := Split(StripLower(email), '@'); !(|parts| > 1 && IsGmailDomain(parts[1]))
    ensures var p := NormalizeAndHashEmail(email).preimage; NormalizedEmail(p) == p
  {
    var n := StripLower(email);
    HashOfNormalized(n);
    StripLowerIdempotent(email);
  }

  /** Normalising an already normalised address changes nothing: the hash input is a fixed point. */
  lemma EmailNormalizationIdempotent(email: string)
    ensures var p := NormalizeAndHashEmail(email).preimage;
            NormalizeAndHashEmail(p) == NormalizeAndHashEmail(email)
  {
    var parts := Split(StripLower(email), '@');
    var p := NormalizeAndHashEmail(email).preimage;
    if |parts| > 1 && IsGmailDomain(parts[1]) {
      GmailFixedPoint(email);
    } else {
      OtherFixedPoint(email);
    }
    HashOfNormalized(p);
  }

  /** An address with no '@' is only stripped and lower-cased. */
  lemma EmailWithoutAt(email: string)
    requires '@' !in StripLower(email)
    ensures NormalizeAndHashEmail(email).preimage == StripLower(email)
  {
    var n := StripLower(email);
    SplitNoSep(n, '@');
    assert NormalizedEmail(email) == n;
    HashOfNormalized(n);
  }

  /** Outside Gmail the address keeps its dots: only strip and lower apply. */
  lemma NonGmailKeepsDots(email: string)
    requires var parts := Split(StripLower(email), '@'); |parts| <= 1 || !IsGmailDomain(parts[1])
    ensures NormalizeAndHashEmail(email).preimage == StripLower(email)
  {
    var n := StripLower(email);
    assert NormalizedEmail(email) == n;
    HashOfNormalized(n);
  }

  /** No whitespace anywhere in `s`. */
  predicate NoSpace(s: string) {
    forall i :: 0 <= i < |s| ==> !IsSpace(s[i])
  }

  /** `strip().lower()` of a whitespace-free `local@domain` lowers each side. */
  lemma StripLowerPlain(local: string, domain: string)
    requires NoSpace(local) && NoSpace(domain)
    ensures StripLower(local + "@" + domain) == Lower(local) + "@" + Lower(domain)
  {
    var e := local + "@" + domain;
    assert NoSpace(e) by {
      forall i | 0 <= i < |e| ensures !IsSpace(e[i]) {
        if i < |local| { assert e[i] == local[i]; }
        else if i > |local| { assert e[i] == domain[i - |local| - 1]; }
      }
    }
    StripSpec(e);
    LowerConcat(local + "@", domain);
    LowerConcat(local, "@");
    assert Lower("@") == "@";
  }

  /** Lower-casing adds no '@' and keeps the dots where they were. */
  lemma LowerNoAt(s: string)
    requires '@' !in s
    ensures '@' !in Lower(s)
  {
    LowerSpec(s);
  }

  /** Lower-casing keeps a string free of whitespace. */
  lemma LowerKeepsNoSpace(s: string)
    requires NoSpace(s)
    ensures NoSpace(Lower(s))
  {
  }

  /** Deleting dots keeps a string lower-cased and free of whitespace. */
  lemma DeleteDotsKeeps(s: string)
    ensures IsLowered(s) ==> IsLowered(RemoveDots(s))
    ensures NoSpace(s) ==> NoSpace(RemoveDots(s))
  {
    var r := RemoveDots(s);
    DeleteCharSpec(s, '.');
    forall i | 0 <= i < |r| ensures r[i] in s {
    }
  }

  /** Joining two lower-cased, whitespace-free strings with '@' gives a normalised string. */
  lemma AtJoinNormalized(a: string, b: string)
    requires IsLowered(a) && IsLowered(b) && NoSpace(a) && NoSpace(b)
    requires b != []
    ensures IsLowered(a + "@" + b) && NoEdgeSpace(a + "@" + b)
  {
    var m := a + "@" + b;
    forall i | 0 <= i < |m| ensures LowerChar(m[i]) == m[i] && !IsSpace(m[i]) {
      if i < |a| { assert m[i] == a[i]; }
      else if i > |a| { assert m[i] == b[i - |a| - 1]; }
    }
  }

  /**
   * A plain address `local@domain` (no whitespace, one '@') hashes as
   * `lower(local)@lower(domain)`, with the dots of the local part removed exactly
   * when the domain is gmail.com or googlemail.com.
   */
  lemma PlainAddress(local: string, domain: string)
    requires '@' !in local && '@' !in domain && domain != []
    requires NoSpace(local) && NoSpace(domain)
    ensures NormalizeAndHashEmail(local + "@" + domain).preimage ==
      (if IsGmailDomain(Lower(domain)) then RemoveDots(Lower(local)) else Lower(local)) + "@" + Lower(domain)
  {
    var e := local + "@" + domain;
    var l, d := Lower(local), Lower(domain);
    StripLowerPlain(local, domain);
    LowerNoAt(local);
    LowerNoAt(domain);
    SplitFirst(l, '@', d);
    SplitNoSep(d, '@');
    var parts := Split(l + "@" + d, '@');
    assert parts == [l, d];
    LowerSpec(local);
    LowerSpec(domain);
    LowerKeepsNoSpace(local);
    LowerKeepsNoSpace(domain);
    if IsGmailDomain(d) {
      var r := RemoveDots(l);
      SplitReplaceHead(l + "@" + d, r);
      assert parts[1..] == [d];
      var m := r + "@" + d;
      assert NormalizedEmail(e) == m;
      DeleteDotsKeeps(l);
      AtJoinNormalized(r, d);
      HashOfNormalized(m);
    } else {
      AtJoinNormalized(l, d);
      HashOfNormalized(l + "@" + d);
    }
  }

  /** `str.lower()` leaves "gmail.com" as it is. */
  lemma LowerGmail(domain: string)
    requires domain == "gmail.com"
    ensures Lower(domain) == domain
  {
    var l := Lower(domain);
    assert l[0] == 'g' && l[1] == 'm' && l[2] == 'a' && l[3] == 'i' && l[4] == 'l';
    assert l[5] == '.' && l[6] == 'c' && l[7] == 'o' && l[8] == 'm';
  }

  /** `str.lower()` leaves "googlemail.com" as it is. */
  lemma LowerGooglemail(domain: string)
    requires domain == "googlemail.com"
    ensures Lower(domain) == domain
  {
    var l := Lower(domain);
    assert l[0] == 'g' && l[1] == 'o' && l[2] == 'o' && l[3] == 'g' && l[4] == 'l';
    assert l[5] == 'e' && l[6] == 'm' && l[7] == 'a' && l[8] == 'i' && l[9] == 'l';
    assert l[10] == '.' && l[11] == 'c' && l[12] == 'o' && l[13] == 'm';
  }

  /** `str.lower()` leaves the two Gmail domains as they are. */
  lemma LowerGmailDomain(domain: string)
    requires domain == "gmail.com" || domain == "googlemail.com"
    ensures Lower(domain) == domain && IsGmailDomain(domain)
  {
    if domain == "gmail.com" {
      LowerGmail(domain);
    } else {
      LowerGooglemail(domain);
    }
  }

  /** The two Gmail domains hold no '@' and no whitespace. */
  lemma GmailDomainPlain(domain: string)
    requires domain == "gmail.com" || domain == "googlemail.com"
    ensures '@' !in domain && NoSpace(domain) && domain != []
  {
    forall i | 0 <= i < |domain| ensures domain[i] != '@' && !IsSpace(domain[i]) {
      assert 'a' <= domain[i] <= 'z' || domain[i] == '.';
    }
  }

  /** Lower-casing goes through the dot between two parts. */
  lemma LowerDotted(x: string, y: string)
    ensures Lower(x + "." + y) == Lower(x) + "." + Lower(y)
  {
    LowerConcat(x + ".", y);
    LowerConcat(x, ".");
    assert Lower(".") == ".";
  }

  /** A local part `x.y` lower-cases to `lower(x).lower(y)`; deleting its dots, or those of `xy`, gives `lower(x)lower(y)`. */
  lemma DottedLocal(x: string, y: string)
    requires '.' !in x && '.' !in y
    ensures Lower(x + "." + y) == Lower(x) + "." + Lower(y)
    ensures RemoveDots(Lower(x + "." + y)) == Lower(x) + Lower(y)
    ensures RemoveDots(Lower(x + y)) == Lower(x) + Lower(y)
  {
    LowerDotted(x, y);
    LowerConcat(x, y);
    LowerSpec(x);
    LowerSpec(y);
    var lx, ly := Lower(x), Lower(y);
    assert '.' !in lx && '.' !in ly;
    DeleteCharAround(lx, ly, '.');
    DeleteCharConcat(lx, ly, '.');
    DeleteCharAbsent(lx, '.');
    DeleteCharAbsent(ly, '.');
    DeleteCharIsReplace(lx + "." + ly, '.');
    DeleteCharIsReplace(lx + ly, '.');
  }

  /** Joining two '@'-free, whitespace-free parts, with or without a dot, keeps them so. */
  lemma DottedPlain(x: string, y: string)
    requires '@' !in x && '@' !in y && NoSpace(x) && NoSpace(y)
    ensures '@' !in x + "." + y && NoSpace(x + "." + y)
    ensures '@' !in x + y && NoSpace(x + y)
  {
    var d, j := x + "." + y, x + y;
    forall i | 0 <= i < |d| ensures d[i] != '@' && !IsSpace(d[i]) {
      if i < |x| { assert d[i] == x[i]; }
      else if i > |x| { assert d[i] == y[i - |x| - 1]; }
    }
    forall i | 0 <= i < |j| ensures j[i] != '@' && !IsSpace(j[i]) {
      if i < |x| { assert j[i] == x[i]; } else { assert j[i] == y[i - |x|]; }
    }
  }

  /**
   * At gmail.com or googlemail.com the dots of the local part do not count:
   * `x.y@domain` and `xy@domain` hash the same string, `lower(x)lower(y)@domain`
   * (with x = "John", y = "Doe": John.Doe@gmail.com and johndoe@gmail.com).
   */
  lemma GmailIgnoresDots(x: string, y: string, domain: string)
    requires '@' !in x && '@' !in y && '.' !in x && '.' !in y && NoSpace(x) && NoSpace(y)
    requires domain == "gmail.com" || domain == "googlemail.com"
    ensures NormalizeAndHashEmail(x + "." + y + "@" + domain) == NormalizeAndHashEmail(x + y + "@" + domain)
    ensures NormalizeAndHashEmail(x + y + "@" + domain).preimage == Lower(x) + Lower(y) + "@" + domain
  {
    LowerGmailDomain(domain);
    GmailDomainPlain(domain);
    DottedPlain(x, y);
    DottedLocal(x, y);
    PlainAddress(x + "." + y, domain);
    PlainAddress(x + y, domain);
  }

  /**
   * At any other domain the dot stays: `x.y@domain` hashes `lower(x).lower(y)@lower(domain)`,
   * a different string from the one `xy@domain` hashes.
   */
  lemma OtherDomainKeepsDots(x: string, y: string, domain: string)
    requires '@' !in x && '@' !in y && '.' !in x && '.' !in y && NoSpace(x) && NoSpace(y)
    requires '@' !in domain && domain != [] && NoSpace(domain) && !IsGmailDomain(Lower(domain))
    ensures NormalizeAndHashEmail(x + "." + y + "@" + domain).preimage == Lower(x) + "." + Lower(y) + "@" + Lower(domain)
    ensures NormalizeAndHashEmail(x + "." + y + "@" + domain) != NormalizeAndHashEmail(x + y + "@" + domain)
  {
    DottedPlain(x, y);
    DottedLocal(x, y);
    PlainAddress(x + "." + y, domain);
    PlainAddress(x + y, domain);
    LowerConcat(x, y);
    assert |NormalizeAndHashEmail(x + "." + y + "@" + domain).preimage|
        == |NormalizeAndHashEmail(x + y + "@" + domain).preimage| + 1;
  }

  // ------------------------------------------------------------------ time

  /** The fixed UTC+3 offset, in seconds. */
  const UtcPlus3 := 3 * 3600
  const SecondsPerDay := 86400

  /** Two decimal digits, zero-padded. */
  function Pad2(n: nat): (s: string)
    requires n < 100
    ensures |s| == 2 && (forall i :: 0 <= i < 2 ==> '0' <= s[i] <= '9') && ParseDigits(s) == n
  {
    var s := [DigitChar(n / 10), DigitChar(n % 10)];
    assert s[..1] == [DigitChar(n / 10)];
    assert s[..1][..0] == [];
    assert ParseDigits(s[..1]) == n / 10;
    s
  }

  /** Four decimal digits, zero-padded (`%Y`). */
  function Pad4(n: nat): (s: string)
    requires n < 10000
    ensures |s| == 4 && (forall i :: 0 <= i < 4 ==> '0' <= s[i] <= '9') && ParseDigits(s) == n
  {
    var s := Pad2(n / 100) + Pad2(n % 100);
    assert s[..3][..2] == Pad2(n / 100);
    assert s[..3] == Pad2(n / 100) + [s[2]];
    assert ParseDigits(s[..3]) == (n / 100) * 10 + (s[2] as int - '0' as int);
    s
  }

  /** Three two-digit fields joined by `sep`: "aa-bb-cc" or "hh:mm:ss". */
  function Triple(a: nat, b: nat, c: nat, sep: char): (s: string)
    requires a < 100 && b < 100 && c < 100
    ensures |s| == 8 && s[0..2] == Pad2(a) && s[3..5] == Pad2(b) && s[6..8] == Pad2(c)
  {
    Pad2(a) + [sep] + Pad2(b) + [sep] + Pad2(c)
  }

  /** `%Y-%m-%d`. */
  function DateField(dt: Date): (s: string)
    requires ValidDate(dt) && 1 <= dt.year <= 9999
    ensures |s| == 10 && s[0..4] == Pad4(dt.year) && s[5..7] == Pad2(dt.month) && s[8..10] == Pad2(dt.day)
  {
    var s := Pad4(dt.year) + "-" + Pad2(dt.month) + "-" + Pad2(dt.day);
    assert s[5..7] == Pad2(dt.month);
    s
  }

  /** `%H:%M:%S` of a second of the day. */
  function ClockField(secondOfDay: nat): (s: string)
    requires secondOfDay < SecondsPerDay
    ensures |s| == 8 && s[0..2] == Pad2(secondOfDay / 3600)
    ensures s[3..5] == Pad2(secondOfDay % 3600 / 60) && s[6..8] == Pad2(secondOfDay % 60)
  {
    Triple(secondOfDay / 3600, secondOfDay % 3600 / 60, secondOfDay % 60, ':')
  }

  /** `strftime("%Y-%m-%d %H:%M:%S%z")` of a datetime at UTC+3 (so `%z` is "+0300"). */
  function StrfTime(dt: Date, secondOfDay: nat): (s: string)
    requires ValidDate(dt) && 1 <= dt.year <= 9999 && secondOfDay < SecondsPerDay
    ensures |s| == 24 && s[..10] == DateField(dt) && s[10] == ' '
    ensures s[11..19] == ClockField(secondOfDay) && s[19..] == "+0300"
  {
    DateField(dt) + " " + ClockField(secondOfDay) + "+0300"
  }

  /** `formatted[:-2] + ":" + formatted[-2:]`. */
  function InsertOffsetColon(f: string): (r: string)
    requires |f| >= 2
    ensures |r| == |f| + 1 && r[..|f| - 2] == f[..|f| - 2] && r[|f| - 2] == ':' && r[|f| - 1..] == f[|f| - 2..]
  {
    f[..|f| - 2] + ":" + f[|f| - 2..]
  }

  /** Inserting the colon turns the "+0300" offset into "+03:00" and keeps the rest. */
  lemma ColonInserted(dt: Date, secondOfDay: nat)
    requires ValidDate(dt) && 1 <= dt.year <= 9999 && secondOfDay < SecondsPerDay
    ensures InsertOffsetColon(StrfTime(dt, secondOfDay)) == DateField(dt) + " " + ClockField(secondOfDay) + "+03:00"
  {
    var f := StrfTime(dt, secondOfDay);
    var head := DateField(dt) + " " + ClockField(secondOfDay);
    assert f == head + "+0300";
    assert f[..22] == head + "+03";
    assert f[22..] == "00";
  }

  /**
   * `_format_time`: the instant `t` (Unix seconds) at UTC+3 as
   * "yyyy-mm-dd hh:mm:ss+03:00". None where `datetime` raises: a UTC or UTC+3
   * year outside 1..9999.
   */
  function FormatTime(t: int): (r: Option<string>)
    ensures r.Some? ==> |r.value| == 25 && r.value[19..] == "+03:00"
    // defined from 0001-01-01 00:00:00 UTC up to the last second whose UTC+3 time is still in 9999
    ensures r.Some? <==> -62135596800 <= t <= 253402289999
  {
    DatetimeYearRange(t / SecondsPerDay);
    DatetimeYearRange((t + UtcPlus3) / SecondsPerDay);
    var utcDate := CivilFromDays(t / SecondsPerDay);
    var local := t + UtcPlus3;
    var date := CivilFromDays(local / SecondsPerDay);
    if 1 <= utcDate.year <= 9999 && 1 <= date.year <= 9999 then
      ColonInserted(date, local % SecondsPerDay);
      Some(InsertOffsetColon(StrfTime(date, local % SecondsPerDay)))
    else
      None
  }

  predicate AllDigits(s: string) {
    forall i :: 0 <= i < |s| ==> '0' <= s[i] <= '9'
  }

  /** Reads a "yyyy-mm-dd hh:mm:ss+03:00" string back to Unix seconds. */
  function ParseFormattedTime(r: string): Option<int> {
    if |r| == 25 && r[19..] == "+03:00"
       && AllDigits(r[0..4]) && AllDigits(r[5..7]) && AllDigits(r[8..10])
       && AllDigits(r[11..13]) && AllDigits(r[14..16]) && AllDigits(r[17..19])
       && 1 <= ParseDigits(r[5..7]) <= 12
    then
      var date := Date(ParseDigits(r[0..4]), ParseDigits(r[5..7]), ParseDigits(r[8..10]));
      var sod := ParseDigits(r[11..13]) * 3600 + ParseDigits(r[14..16]) * 60 + ParseDigits(r[17..19]);
      Some(DaysFromCivil(date) * SecondsPerDay + sod - UtcPlus3)
    else
      None
  }

  lemma MulAtLeast(k: int, d: int)
    requires k >= 1 && d > 0
    ensures k * d >= d
  {
    var j := k - 1;
    assert k * d == j * d + d;
    assert j * d >= 0;
  }

  /** Euclidean quotient and remainder are the only ones with `0 <= r < d`. */
  lemma DivModUnique(a: int, d: int, q: int, r: int)
    requires 0 < d && 0 <= r < d && a == q * d + r
    ensures a / d == q && a % d == r
  {
    var q2, r2 := a / d, a % d;
    assert a == q2 * d + r2;
    assert (q - q2) * d == r2 - r;
    if q > q2 {
      MulAtLeast(q - q2, d);
    } else if q < q2 {
      MulAtLeast(q2 - q, d);
    }
  }

  /** Hours, minutes and seconds put back together give the second of the day. */
  lemma ClockDecompose(sod: nat)
    ensures (sod / 3600) * 3600 + (sod % 3600 / 60) * 60 + sod % 60 == sod
  {
    var h, rem := sod / 3600, sod % 3600;
    var m, s := rem / 60, rem % 60;
    assert sod == h * 3600 + rem;
    assert rem == m * 60 + s;
    assert sod == (h * 60 + m) * 60 + s;
    DivModUnique(sod, 60, h * 60 + m, s);
  }

  /** Where each field of "yyyy-mm-dd hh:mm:ss+03:00" sits. */
  lemma RenderedSlices(df: string, cf: string)
    requires |df| == 10 && |cf| == 8
    ensures var r := df + " " + cf + "+03:00";
            && |r| == 25 && r[19..] == "+03:00"
            && r[0..4] == df[0..4] && r[5..7] == df[5..7] && r[8..10] == df[8..10]
            && r[11..13] == cf[0..2] && r[14..16] == cf[3..5] && r[17..19] == cf[6..8]
  {
  }

  /** A well-formed rendering is read back field by field. */
  lemma ParseFields(r: string, dt: Date, h: nat, m: nat, sec: nat, t: int)
    requires |r| == 25 && r[19..] == "+03:00" && 1 <= dt.month <= 12
    requires AllDigits(r[0..4]) && AllDigits(r[5..7]) && AllDigits(r[8..10])
    requires AllDigits(r[11..13]) && AllDigits(r[14..16]) && AllDigits(r[17..19])
    requires ParseDigits(r[0..4]) == dt.year && ParseDigits(r[5..7]) == dt.month && ParseDigits(r[8..10]) == dt.day
    requires ParseDigits(r[11..13]) == h && ParseDigits(r[14..16]) == m && ParseDigits(r[17..19]) == sec
    requires DaysFromCivil(dt) * SecondsPerDay + (h * 3600 + m * 60 + sec) - UtcPlus3 == t
    ensures ParseFormattedTime(r) == Some(t)
  {
  }

  /** Reading back a rendered date and clock gives the instant they denote. */
  lemma ParseRendered(dt: Date, sod: nat, t: int)
    requires ValidDate(dt) && 1 <= dt.year <= 9999 && sod < SecondsPerDay
    requires DaysFromCivil(dt) * SecondsPerDay + sod - UtcPlus3 == t
    ensures ParseFormattedTime(DateField(dt) + " " + ClockField(sod) + "+03:00") == Some(t)
  {
    var df, cf := DateField(dt), ClockField(sod);
    RenderedSlices(df, cf);
    var r := df + " " + cf + "+03:00";
    var h, m, sec := sod / 3600, sod % 3600 / 60, sod % 60;
    ClockDecompose(sod);
    ParseFields(r, dt, h, m, sec, t);
  }

  /** The colon-inserted rendering of a date and clock reads back as the instant they denote. */
  lemma RenderedRoundTrip(date: Date, sod: nat, t: int)
    requires ValidDate(date) && 1 <= date.year <= 9999 && sod < SecondsPerDay
    requires DaysFromCivil(date) * SecondsPerDay + sod - UtcPlus3 == t
    ensures ParseFormattedTime(InsertOffsetColon(StrfTime(date, sod))) == Some(t)
  {
    var f := DateField(date) + " " + ClockField(sod) + "+03:00";
    assert InsertOffsetColon(StrfTime(date, sod)) == f by {
      ColonInserted(date, sod);
    }
    ParseRendered(date, sod, t);
  }

  /** The rendered time denotes exactly the instant it was made from. */
  lemma FormatTimeRoundTrip(t: int)
    requires FormatTime(t).Some?
    ensures ParseFormattedTime(FormatTime(t).value) == Some(t)
  {
    var local := t + UtcPlus3;
    var days := local / SecondsPerDay;
    var date := CivilFromDays(days);
    var sod := local % SecondsPerDay;
    assert days * SecondsPerDay + sod == local;
    RenderedRoundTrip(date, sod, t);
  }

  /** Distinct instants render differently. */
  lemma FormatTimeInjective(t1: int, t2: int)
    requires FormatTime(t1).Some? && FormatTime(t1) == FormatTime(t2)
    ensures t1 == t2
  {
    FormatTimeRoundTrip(t1);
    FormatTimeRoundTrip(t2);
  }

  // ------------------------------------------------------------------ click conversion

  /** `ConsentStatusEnum`: a fresh message holds UNSPECIFIED until it is set. */
  datatype Consent = Unspecified | Granted

  /** A `UserIdentifier` with source FIRST_PARTY, holding one hashed value. */
  datatype UserIdentifier = EmailIdentifier(hashedEmail: Digest) | PhoneIdentifier(hashedPhoneNumber: Digest)

  /** Why building the conversion raised: the upload then gives up and returns nothing. */
  datatype ConversionError =
    | BadConversionTime   // `datetime.fromtimestamp` rejects the value or its year
    | BadConversionValue  // `float()` rejects the value
    | BadEmail            // a truthy e-mail that is not a string has no `.lower()`
    | BadPhone            // a truthy phone that is not a string has no `.strip()`

  /** The fields of a `ClickConversion` message that the service sets. */
  datatype ConversionRecord = ConversionRecord(
    conversionDateTime: string,
    conversionValue: int,
    currencyCode: Value,
    orderId: Option<Value>,
    gclid: Option<Value>,
    gbraid: Option<Value>,
    adUserData: Consent,
    adPersonalization: Consent,
    userIdentifiers: seq<UserIdentifier>)

  /** `raw_lead.get("conversion_date_time", now)` as whole Unix seconds, where `fromtimestamp` accepts it. */
  function ConversionInstant(rawLead: map<string, Value>, now: int): (t: Option<int>)
    ensures "conversion_date_time" !in rawLead ==> t == Some(now)
    ensures "conversion_date_time" in rawLead && rawLead["conversion_date_time"].Int? ==> t == Some(rawLead["conversion_date_time"].i)
    ensures t.None? ==> "conversion_date_time" in rawLead
    // a bool is an int to Python; anything else present (None, text, a list, an object) is refused
    ensures "conversion_date_time" in rawLead && rawLead["conversion_date_time"].Bool? ==>
      t == Some(if rawLead["conversion_date_time"].b then 1 else 0)
    ensures "conversion_date_time" in rawLead && !rawLead["conversion_date_time"].Int? && !rawLead["conversion_date_time"].Bool? ==>
      t.None?
  {
    match Get(rawLead, "conversion_date_time")
    case Int(i) => Some(i)
    case Bool(b) => Some(if b then 1 else 0)
    case Null => if "conversion_date_time" in rawLead then None else Some(now)
    case _ => None
  }

  /** A sign (or none) followed by decimal digits, read as a whole number. */
  function SignedDigits(t: string): (v: Option<int>)
    ensures v.Some? ==> t != [] && '0' <= t[|t| - 1] <= '9'
  {
    if |t| >= 2 && (t[0] == '+' || t[0] == '-') && AllDigits(t[1..]) then
      var magnitude: int := ParseDigits(t[1..]);
      Some(if t[0] == '-' then -magnitude else magnitude)
    else if t != [] && AllDigits(t) then
      Some(ParseDigits(t))
    else
      None
  }

  /**
   * `float(text)` for text that spells a whole number: optional surrounding
   * whitespace, an optional sign, then decimal digits.
   */
  function ParseWholeNumber(text: string): (v: Option<int>)
    ensures v.Some? ==> Strip(text) != []
  {
    SignedDigits(Strip(text))
  }

  /** Digits after a minus are read back negated. */
  lemma SignedDigitsNegative(digits: string)
    requires digits != [] && AllDigits(digits)
    ensures SignedDigits("-" + digits) == Some(-(ParseDigits(digits) as int))
  {
    assert ("-" + digits)[1..] == digits;
  }

  /** Digits alone, or after a plus, are read back as they are. */
  lemma SignedDigitsPositive(digits: string)
    requires digits != [] && AllDigits(digits)
    ensures SignedDigits(digits) == Some(ParseDigits(digits) as int)
    ensures SignedDigits("+" + digits) == Some(ParseDigits(digits) as int)
  {
    assert digits[0] != '+' && digits[0] != '-';
    assert ("+" + digits)[1..] == digits;
  }

  /** `str(n)` is read back as `n`, and so is it with a plus sign in front. */
  lemma SignedDigitsOfInt(n: int)
    ensures SignedDigits(IntToString(n)) == Some(n)
    ensures n >= 0 ==> SignedDigits("+" + IntToString(n)) == Some(n)
  {
    var m: nat := if n < 0 then -n else n;
    ParseNatToString(m);
    if n < 0 {
      SignedDigitsNegative(NatToString(m));
    } else {
      SignedDigitsPositive(NatToString(m));
    }
  }

  /** Text that a sign or a digit starts and a digit ends has nothing to strip. */
  lemma StripNumberText(t: string)
    requires t != [] && (t[0] == '+' || t[0] == '-' || '0' <= t[0] <= '9') && '0' <= t[|t| - 1] <= '9'
    ensures Strip(t) == t
  {
    StripSpec(t);
  }

  /** `float(str(n)) == n`, and an explicit plus sign changes nothing. */
  lemma ParseWholeNumberRoundTrip(n: int)
    ensures ParseWholeNumber(IntToString(n)) == Some(n)
    ensures n >= 0 ==> ParseWholeNumber("+" + IntToString(n)) == Some(n)
  {
    SignedDigitsOfInt(n);
    var text := IntToString(n);
    IntToStringSign(n);
    StripNumberText(text);
    if n >= 0 {
      assert '0' <= text[0] <= '9';
      var plus := "+" + text;
      assert plus[|plus| - 1] == text[|text| - 1];
      StripNumberText(plus);
    }
  }

  /** `float(raw_lead.get("conversion_value", default))`, for the values that are whole numbers. */
  function ConversionValue(rawLead: map<string, Value>, ct: ConversionType): (v: Option<int>)
    ensures "conversion_value" !in rawLead ==> v == Some(ct.DefaultConversionValue())
    ensures "conversion_value" in rawLead && rawLead["conversion_value"].Int? ==> v == Some(rawLead["conversion_value"].i)
    ensures v.None? ==> "conversion_value" in rawLead
    // a bool counts as 0 or 1; text is read as a number; None, lists and objects are refused
    ensures "conversion_value" in rawLead && rawLead["conversion_value"].Bool? ==>
      v == Some(if rawLead["conversion_value"].b then 1 else 0)
    ensures "conversion_value" in rawLead && rawLead["conversion_value"].Str? ==>
      v == ParseWholeNumber(rawLead["conversion_value"].s)
    ensures "conversion_value" in rawLead && (rawLead["conversion_value"].Null? || rawLead["conversion_value"].Arr? || rawLead["conversion_value"].Obj?) ==>
      v.None?
  {
    if "conversion_value" !in rawLead then Some(ct.DefaultConversionValue())
    else match rawLead["conversion_value"]
      case Int(i) => Some(i)
      case Bool(b) => Some(if b then 1 else 0)
      case Str(text) => ParseWholeNumber(text)
      case _ => None
  }

  /**
   * `_create_click_conversion`: the message it fills in, or the error it raises.
   * No user identifiers yet; those are appended by `_add_user_identifiers`.
   */
  function CreateConversion(rawLead: map<string, Value>, ct: ConversionType, now: int): (r: Result<ConversionRecord, ConversionError>)
    // raises exactly when the time or the value is rejected, the time first
    ensures r.Failure? <==> ConversionInstant(rawLead, now).None? || FormatTime(ConversionInstant(rawLead, now).value).None?
                            || ConversionValue(rawLead, ct).None?
    ensures r.Failure? && r.error == BadConversionValue ==> ConversionInstant(rawLead, now).Some?
    ensures r.Success? ==> var c := r.value;
      // the time is the UTC+3 rendering of the lead's instant, or of now when it has none
      && Some(c.conversionDateTime) == FormatTime(ConversionInstant(rawLead, now).value)
      && ("conversion_date_time" !in rawLead ==> Some(c.conversionDateTime) == FormatTime(now))
      // defaults apply only to absent keys
      // the value is the lead's own, read as `float` reads it
      && c.conversionValue == ConversionValue(rawLead, ct).value
      && ("conversion_value" !in rawLead ==> c.conversionValue == ct.DefaultConversionValue())
      && ("currency_code" !in rawLead ==> c.currencyCode == Str("USD"))
      && ("currency_code" in rawLead ==> c.currencyCode == rawLead["currency_code"])
      // the order id is copied only when truthy
      && (c.orderId.Some? <==> Truthy(Get(rawLead, "order_id")))
      && (c.orderId.Some? ==> c.orderId.value == rawLead["order_id"])
      // gclid wins over gbraid; never both
      && (c.gclid.Some? <==> Truthy(Get(rawLead, "gclid")))
      && (c.gbraid.Some? <==> !Truthy(Get(rawLead, "gclid")) && Truthy(Get(rawLead, "gbraid")))
      && !(c.gclid.Some? && c.gbraid.Some?)
      && (c.gclid.Some? ==> c.gclid.value == rawLead["gclid"])
      && (c.gbraid.Some? ==> c.gbraid.value == rawLead["gbraid"])
      // consent is always granted, and no identifier is attached yet
      && c.adUserData == Granted && c.adPersonalization == Granted
      && c.userIdentifiers == []
  {
    match ConversionInstant(rawLead, now)
    case None => Failure(BadConversionTime)
    case Some(t) =>
      match FormatTime(t)
      case None => Failure(BadConversionTime)
      case Some(when) =>
        match ConversionValue(rawLead, ct)
        case None => Failure(BadConversionValue)
        case Some(value) => Success(FillConversion(rawLead, when, value))
  }

  /** The fields `_create_click_conversion` sets once the time and the value are known. */
  function FillConversion(rawLead: map<string, Value>, when: string, value: int): ConversionRecord {
    ConversionRecord(
      when,
      value,
      if "currency_code" in rawLead then rawLead["currency_code"] else Str("USD"),
      if Truthy(Get(rawLead, "order_id")) then Some(rawLead["order_id"]) else None,
      if Truthy(Get(rawLead, "gclid")) then Some(rawLead["gclid"]) else None,
      if !Truthy(Get(rawLead, "gclid")) && Truthy(Get(rawLead, "gbraid")) then Some(rawLead["gbraid"]) else None,
      Granted,
      Granted,
      [])
  }

  /** What `_add_user_identifiers` appends, and the error that stops it (after the appends before it). */
  datatype IdentifierResult = IdentifierResult(appended: seq<UserIdentifier>, error: Option<ConversionError>)

  /** The e-mail identifier: the e-mail is lower-cased at the call site, then normalised and hashed. */
  function EmailIdentifierOf(email: string): UserIdentifier {
    EmailIdentifier(NormalizeAndHashEmail(Lower(email)))
  }

  /** The call site's own `lower()` makes no difference to the hashed e-mail. */
  lemma EmailCallSiteLower(email: string)
    ensures EmailIdentifierOf(email) == EmailIdentifier(NormalizeAndHashEmail(email))
  {
    assert NormalizedEmail(Lower(email)) == NormalizedEmail(email) by {
      StripLowerOfLower(email);
    }
  }

  /** The phone identifier: plain strip and lower, no dot removal. */
  function PhoneIdentifierOf(phone: string): UserIdentifier {
    PhoneIdentifier(NormalizeAndHash(phone))
  }

  /** The second half of `_add_user_identifiers`: after the entries `first`, a phone entry when the phone is truthy. */
  function PhoneStep(first: seq<UserIdentifier>, phone: Value): (r: IdentifierResult)
    ensures |first| <= |r.appended| <= |first| + 1 && r.appended[..|first|] == first
    ensures r.error.None? <==> !Truthy(phone) || phone.Str?
    ensures r.error.Some? ==> r == IdentifierResult(first, Some(BadPhone))
    ensures r.error.None? ==> |r.appended| == |first| + (if Truthy(phone) then 1 else 0)
    ensures Truthy(phone) && phone.Str? ==> r.appended[|r.appended| - 1] == PhoneIdentifierOf(phone.s)
  {
    if Truthy(phone) && !phone.Str? then IdentifierResult(first, Some(BadPhone))
    else if Truthy(phone) then IdentifierResult(first + [PhoneIdentifierOf(phone.s)], None)
    else IdentifierResult(first, None)
  }

  /** `_add_user_identifiers`: an e-mail entry when the e-mail is truthy, then a phone entry when the phone is. */
  function UserIdentifiers(rawLead: map<string, Value>): (r: IdentifierResult)
    ensures |r.appended| <= 2
    // e-mail first: two entries are an e-mail entry and then a phone entry
    ensures |r.appended| == 2 ==> r.appended[0].EmailIdentifier? && r.appended[1].PhoneIdentifier?
    ensures r.appended != [] && r.appended[0].EmailIdentifier? ==> Truthy(Get(rawLead, "email"))
    ensures r.appended != [] && r.appended[|r.appended| - 1].PhoneIdentifier? ==> Truthy(Get(rawLead, "phone"))
    // the hashed values
    ensures Truthy(Get(rawLead, "email")) && Get(rawLead, "email").Str? ==>
              r.appended != [] && r.appended[0] == EmailIdentifierOf(rawLead["email"].s)
    ensures Truthy(Get(rawLead, "phone")) && Get(rawLead, "phone").Str? && r.error.None? ==>
              r.appended != [] && r.appended[|r.appended| - 1] == PhoneIdentifierOf(rawLead["phone"].s)
    // a truthy non-string stops the list there
    ensures Truthy(Get(rawLead, "email")) && !Get(rawLead, "email").Str? ==> r == IdentifierResult([], Some(BadEmail))
    ensures r.error.None? <==>
              (!Truthy(Get(rawLead, "email")) || Get(rawLead, "email").Str?)
              && (!Truthy(Get(rawLead, "phone")) || Get(rawLead, "phone").Str?)
    ensures r.error.None? ==>
              |r.appended| == (if Truthy(Get(rawLead, "email")) then 1 else 0) + (if Truthy(Get(rawLead, "phone")) then 1 else 0)
  {
    var email, phone := Get(rawLead, "email"), Get(rawLead, "phone");
    if Truthy(email) && !email.Str? then IdentifierResult([], Some(BadEmail))
    else
      var first := if Truthy(email) then [EmailIdentifierOf(email.s)] else [];
      PhoneStep(first, phone)
  }

  /** The `ClickConversion` message, whose fields the service sets one at a time. */
  class ClickConversion {
    var conversionDateTime: string
    var conversionValue: int
    var currencyCode: Value
    var orderId: Option<Value>
    var gclid: Option<Value>
    var gbraid: Option<Value>
    var adUserData: Consent
    var adPersonalization: Consent
    var userIdentifiers: seq<UserIdentifier>

    /** `client.get_type("ClickConversion")`: every field at its default. */
    constructor ()
      ensures Record() == ConversionRecord("", 0, Str(""), None, None, None, Unspecified, Unspecified, [])
    {
      conversionDateTime := "";
      conversionValue := 0;
      currencyCode := Str("");
      orderId := None;
      gclid := None;
      gbraid := None;
      adUserData := Unspecified;
      adPersonalization := Unspecified;
      userIdentifiers := [];
    }

    /** The assignments of `_create_click_conversion`, in its order, on a message whose optional fields are unset. */
    method SetFields(rawLead: map<string, Value>, when: string, value: int)
      requires orderId.None? && gclid.None? && gbraid.None?
      modifies this
      ensures Record() == FillConversion(rawLead, when, value).(userIdentifiers := old(userIdentifiers))
    {
      conversionDateTime := when;
      conversionValue := value;
      currencyCode := if "currency_code" in rawLead then rawLead["currency_code"] else Str("USD");
      if Truthy(Get(rawLead, "order_id")) {
        orderId := Some(rawLead["order_id"]);
      }
      if Truthy(Get(rawLead, "gclid")) {
        gclid := Some(rawLead["gclid"]);
      } else if Truthy(Get(rawLead, "gbraid")) {
        gbraid := Some(rawLead["gbraid"]);
      }
      adUserData := Granted;
      adPersonalization := Granted;
    }

    /** The current field values. */
    function Record(): ConversionRecord
      reads this
    {
      ConversionRecord(conversionDateTime, conversionValue, currencyCode, orderId, gclid, gbraid,
                       adUserData, adPersonalization, userIdentifiers)
    }
  }

  /** `_create_click_conversion`: a new message with its fields set one by one, or the error raised on the way. */
  method CreateClickConversion(rawLead: map<string, Value>, ct: ConversionType, now: int)
    returns (r: Result<ClickConversion, ConversionError>)
    ensures r.Success? <==> CreateConversion(rawLead, ct, now).Success?
    ensures r.Failure? ==> r.error == CreateConversion(rawLead, ct, now).error
    ensures r.Success? ==> fresh(r.value) && r.value.Record() == CreateConversion(rawLead, ct, now).value
  {
    var instant := ConversionInstant(rawLead, now);
    if instant.None? {
      return Failure(BadConversionTime);
    }
    var when := FormatTime(instant.value);
    if when.None? {
      return Failure(BadConversionTime);
    }
    var value := ConversionValue(rawLead, ct);
    if value.None? {
      return Failure(BadConversionValue);
    }
    var c := new ClickConversion();
    c.SetFields(rawLead, when.value, value.value);
    return Success(c);
  }

  /** `_add_user_identifiers`: appends to the message's identifier list and changes nothing else. */
  method AddUserIdentifiers(rawLead: map<string, Value>, c: ClickConversion) returns (err: Option<ConversionError>)
    modifies c
    ensures c.userIdentifiers == old(c.userIdentifiers) + UserIdentifiers(rawLead).appended
    ensures err == UserIdentifiers(rawLead).error
    ensures c.Record() == old(c.Record()).(userIdentifiers := c.userIdentifiers)
  {
    ghost var before := c.userIdentifiers;
    var email := Get(rawLead, "email");
    var first: seq<UserIdentifier> := [];
    if Truthy(email) {
      if !email.Str? {
        return Some(BadEmail);
      }
      first := [EmailIdentifierOf(email.s)];
      c.userIdentifiers := c.userIdentifiers + first;
    }
    assert c.userIdentifiers == before + first;
    var phone := Get(rawLead, "phone");
    assert UserIdentifiers(rawLead) == PhoneStep(first, phone);
    if Truthy(phone) {
      if !phone.Str? {
        return Some(BadPhone);
      }
      var entry := PhoneIdentifierOf(phone.s);
      c.userIdentifiers := c.userIdentifiers + [entry];
      assert PhoneStep(first, phone).appended == first + [entry];
      assert c.userIdentifiers == before + (first + [entry]);
    }
    return None;
  }

  /**
   * The part of `upload_offline_conversion` that builds the message: create it, then
   * attach the identifiers. Any error ends the upload with nothing sent.
   */
  method PrepareClickConversion(rawLead: map<string, Value>, ct: ConversionType, now: int)
    returns (r: Result<ClickConversion, ConversionError>)
    ensures r.Success? <==> CreateConversion(rawLead, ct, now).Success? && UserIdentifiers(rawLead).error.None?
    ensures r.Success? ==> fresh(r.value)
    ensures r.Success? ==>
              r.value.Record() == CreateConversion(rawLead, ct, now).value.(userIdentifiers := UserIdentifiers(rawLead).appended)
  {
    r := CreateClickConversion(rawLead, ct, now);
    if r.Success? {
      var err := AddUserIdentifiers(rawLead, r.value);
      if err.Some? {
        r := Failure(err.value);
      }
    }
  }
}

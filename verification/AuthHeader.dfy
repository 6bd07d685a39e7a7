/** Printing and reading the signature headers the adapter exchanges. */
module AuthHeader {
  import opened Options
  import opened Sequences
  import opened Strings

  const QUOTE := '\"'
  const ALGORITHM := "ed25519"

  // ---------------------------------------------------------------- printing

  /** Each chunk followed by a quote: the odd ones are names, the even ones values. */
  function Quoted(chunks: seq<string>, rest: string): string {
    if chunks == [] then rest else chunks[0] + [QUOTE] + Quoted(chunks[1..], rest)
  }

  function Digits(n: nat): string {
    if n < 10 then ['0' + n as char] else Digits(n / 10) + ['0' + (n % 10) as char]
  }

  function Decimal(n: int): string {
    if n < 0 then "-" + Digits(-n) else Digits(n)
  }

  function KeyId(sub: string, key: string): string {
    sub + "|" + (key + "|" + ALGORITHM)
  }

  const PLAIN_FIELDS := "(created) (expires) digest"
  const REQUEST_SIGNATURE := "request-signature"

  function CoveredFields(withRequest: bool): string {
    if withRequest then PLAIN_FIELDS + " " + REQUEST_SIGNATURE else PLAIN_FIELDS
  }

  /** The header's names and values before the signature. */
  function Lead(sub: string, key: string, created: int, expires: int, withRequest: bool): seq<string> {
    ["Signature keyId=", KeyId(sub, key),
     ",algorithm=", ALGORITHM,
     ",created=", Decimal(created),
     ",expires=", Decimal(expires),
     ",headers=", CoveredFields(withRequest),
     ",signature="]
  }

  /** The Authorization header of a signed request; a solicited callback declares that
      its signing string also covers the request's signature. */
  function GenerateAuthHeader(sub: string, key: string, created: int, expires: int, signature: string, requestSig: string): string {
    Quoted(Lead(sub, key, created, expires, requestSig != ""), signature + [QUOTE])
  }

  /** The Signature header of a synchronous answer. */
  function BuildSignatureHeader(sub: string, key: string, created: int, expires: int, signature: string): string {
    Quoted(Lead(sub, key, created, expires, true), signature + [QUOTE])
  }

  // ----------------------------------------------------------------- reading

  /** strings.Index, for a pattern that is not empty. */
  function Index(s: string, pat: string): int
    requires pat != ""
    ensures -1 <= Index(s, pat) && Index(s, pat) + |pat| <= |s| + (if Index(s, pat) < 0 then |pat| + 1 else 0)
  {
    if HasPrefix(s, pat) then 0
    else if s == "" then -1
    else
      var i := Index(s[1..], pat);
      if i < 0 then -1 else i + 1
  }

  /** What follows the first occurrence of the marker. */
  function After(s: string, marker: string): Option<string>
    requires marker != ""
  {
    var i := Index(s, marker);
    if i < 0 then None else Some(s[i + |marker|..])
  }

  /** What comes before the next quote. */
  function UpToQuote(s: string): Option<string> {
    var i := Index(s, [QUOTE]);
    if i < 0 then None else Some(s[..i])
  }

  /** The value of the attribute the marker opens. */
  function ValueOf(header: string, marker: string): Option<string>
    requires marker != ""
  {
    match After(header, marker)
    case None => None
    case Some(rest) => UpToQuote(rest)
  }

  datatype Parsed = BadHeader | Parsed(subscriberId: string, uniqueId: string, algorithm: string)

  function ParseHeader(header: string): Parsed {
    var part := match ValueOf(header, "keyId=" + [QUOTE]) case None => "" case Some(v) => TrimSpace(v);
    if part == "" then BadHeader
    else
      var parts := Split(part, '|');
      if |parts| != 3 then BadHeader
      else Parsed(TrimSpace(parts[0]), TrimSpace(parts[1]), TrimSpace(parts[2]))
  }

  predicate IncludesRequestSig(header: string) {
    match ValueOf(header, "headers=" + [QUOTE])
    case None => false
    case Some(fields) => Index(fields, REQUEST_SIGNATURE) >= 0
  }

  function ExtractSignature(header: string): string {
    match ValueOf(header, ",signature=" + [QUOTE])
    case None => ""
    case Some(v) => v
  }

  // ------------------------------------------------------------ finding markers

  lemma {:induction false} IndexIsFirst(s: string, pat: string, i: nat)
    requires pat != "" && i <= |s| && HasPrefix(s[i..], pat)
    requires forall j :: 0 <= j < i ==> !HasPrefix(s[j..], pat)
    ensures Index(s, pat) == i
  {
    if i == 0 {
      assert s[0..] == s;
    } else {
      assert !HasPrefix(s[0..], pat) && s[0..] == s;
      assert forall j :: 0 <= j < i - 1 ==> s[1..][j..] == s[j + 1..];
      assert s[1..][i - 1..] == s[i..];
      IndexIsFirst(s[1..], pat, i - 1);
    }
  }

  lemma {:induction false} IndexIsPrefix(s: string, pat: string)
    requires pat != "" && Index(s, pat) >= 0
    ensures HasPrefix(s[Index(s, pat)..], pat)
    ensures forall j :: 0 <= j < Index(s, pat) ==> !HasPrefix(s[j..], pat)
  {
    if HasPrefix(s, pat) {
      assert s[0..] == s;
    } else {
      IndexIsPrefix(s[1..], pat);
      assert s[Index(s, pat)..] == s[1..][Index(s[1..], pat)..];
      assert s[0..] == s;
      assert forall j :: 1 <= j < Index(s, pat) ==> s[j..] == s[1..][j - 1..];
    }
  }

  /** Up to the next quote, and exactly as far when there is none before it. */
  lemma UpToQuoteFacts(value: string, rest: string)
    ensures UpToQuote(value + [QUOTE] + rest).Some?
    ensures QUOTE !in UpToQuote(value + [QUOTE] + rest).value
    ensures UpToQuote(value + [QUOTE] + rest).value == value <==> QUOTE !in value
  {
    var s := value + [QUOTE] + rest;
    FindsQuote(s, |value|);
    IndexIsPrefix(s, [QUOTE]);
    var i := Index(s, [QUOTE]);
    assert forall j :: 0 <= j < i ==> s[j] == s[j..][0];
    assert s[i] == s[i..][0] == QUOTE;
    if QUOTE !in value {
      assert forall j :: 0 <= j < |value| ==> s[j] == value[j];
      assert i == |value|;
      assert s[..i] == value;
    }
  }

  lemma {:induction false} FindsQuote(s: string, k: nat)
    requires k < |s| && s[k] == QUOTE
    ensures Index(s, [QUOTE]) >= 0
  {
    if !HasPrefix(s, [QUOTE]) {
      assert k > 0;
      FindsQuote(s[1..], k - 1);
    }
  }

  /** A marker ends in a quote, so it can only be found where a chunk ends in its name. */
  lemma {:induction false} SkipChunk(chunk: string, rest: string, name: string)
    requires QUOTE !in chunk && QUOTE !in name && !HasSuffix(chunk, name)
    ensures After(chunk + [QUOTE] + rest, name + [QUOTE]) == After(rest, name + [QUOTE])
  {
    var s, marker := chunk + [QUOTE] + rest, name + [QUOTE];
    if |name| < |chunk| {
      assert s[|name|] == chunk[|name|] != marker[|name|];
    } else if |name| > |chunk| {
      assert marker[|chunk|] == name[|chunk|] != s[|chunk|];
    } else {
      assert name != chunk;
      var k :| 0 <= k < |name| && name[k] != chunk[k];
      assert s[k] == chunk[k] != marker[k];
    }
    if chunk == "" {
      assert s[1..] == rest;
    } else {
      assert s[1..] == chunk[1..] + [QUOTE] + rest;
      SuffixOfTail(chunk, name);
      SkipChunk(chunk[1..], rest, name);
    }
  }

  lemma SuffixOfTail(s: string, suffix: string)
    requires s != ""
    ensures HasSuffix(s[1..], suffix) ==> HasSuffix(s, suffix)
  {
    assert forall k :: 1 <= k < |s| ==> s[k] == s[1..][k - 1];
  }

  lemma {:induction false} HitChunk(chunk: string, rest: string, name: string)
    requires QUOTE !in chunk && QUOTE !in name && HasSuffix(chunk, name)
    ensures After(chunk + [QUOTE] + rest, name + [QUOTE]) == Some(rest)
  {
    var s, marker := chunk + [QUOTE] + rest, name + [QUOTE];
    var at := |chunk| - |name|;
    assert forall k :: 0 <= k < |name| ==> s[at..][k] == chunk[at + k] == name[k];
    forall j | 0 <= j < at ensures !HasPrefix(s[j..], marker) {
      assert s[j..][|name|] == chunk[j + |name|] != marker[|name|];
    }
    IndexIsFirst(s, marker, at);
    assert s[at + |marker|..] == rest;
  }

  /** In a header of quote-free chunks the marker is found behind the first chunk that
      ends in its name. */
  lemma {:induction false} FindChunk(chunks: seq<string>, rest: string, name: string, k: nat)
    requires k < |chunks| && QUOTE !in name && HasSuffix(chunks[k], name)
    requires forall i :: 0 <= i <= k ==> QUOTE !in chunks[i]
    requires forall i :: 0 <= i < k ==> !HasSuffix(chunks[i], name)
    ensures After(Quoted(chunks, rest), name + [QUOTE]) == Some(Quoted(chunks[k + 1..], rest))
  {
    if k == 0 {
      HitChunk(chunks[0], Quoted(chunks[1..], rest), name);
    } else {
      SkipChunk(chunks[0], Quoted(chunks[1..], rest), name);
      FindChunk(chunks[1..], rest, name, k - 1);
      assert chunks[1..][k..] == chunks[k + 1..];
    }
  }

  // --------------------------------------------------------------- round trips

  /** What an identifier must be to survive the header. */
  predicate Plain(id: string) {
    Trimmed(id) && QUOTE !in id && '|' !in id
  }

  lemma {:induction false} DigitsAreDigits(n: nat)
    ensures Digits(n) != "" && forall c :: c in Digits(n) ==> '0' <= c <= '9'
  {
    if n >= 10 {
      DigitsAreDigits(n / 10);
    }
  }

  lemma DecimalFacts(n: int)
    ensures Decimal(n) != "" && QUOTE !in Decimal(n) && Decimal(n)[|Decimal(n)| - 1] != '='
  {
    DigitsAreDigits(if n < 0 then -n else n);
  }

  /** The value of the key id attribute, whatever the identifiers are. */
  lemma KeyIdAttribute(sub: string, key: string, created: int, expires: int, withRequest: bool, tail: string)
    ensures exists rest :: After(Quoted(Lead(sub, key, created, expires, withRequest), tail), "keyId=" + [QUOTE])
              == Some(KeyId(sub, key) + [QUOTE] + rest)
  {
    var lead := Lead(sub, key, created, expires, withRequest);
    assert HasSuffix(lead[0], "keyId=") by {
      assert lead[0] == "Signature " + "keyId=";
    }
    FindChunk(lead, tail, "keyId=", 0);
    assert Quoted(lead[1..], tail) == KeyId(sub, key) + [QUOTE] + Quoted(lead[1..][1..], tail);
  }

  lemma AlgorithmFacts()
    ensures |ALGORITHM| == 7 && ALGORITHM[6] == '9' && Trimmed(ALGORITHM)
    ensures '|' !in ALGORITHM && QUOTE !in ALGORITHM
  {
  }

  lemma KeyIdIsTrimmed(sub: string, key: string)
    requires Trimmed(sub)
    ensures KeyId(sub, key) != "" && Trimmed(KeyId(sub, key)) && TrimSpace(KeyId(sub, key)) == KeyId(sub, key)
  {
    var id := KeyId(sub, key);
    AlgorithmFacts();
    assert id[|id| - 1] == ALGORITHM[6];
    assert id[0] == if sub == "" then '|' else sub[0];
    TrimSpaceFacts(id);
  }

  lemma KeyIdSplits(sub: string, key: string)
    requires '|' !in sub && '|' !in key
    ensures Split(KeyId(sub, key), '|') == [sub, key, ALGORITHM]
  {
    AlgorithmFacts();
    SplitAt(sub, key + "|" + ALGORITHM, '|');
    SplitAt(key, ALGORITHM, '|');
    SplitPlain(ALGORITHM, '|');
  }

  lemma KeyIdIsQuoteFree(sub: string, key: string)
    ensures QUOTE !in KeyId(sub, key) <==> QUOTE !in sub && QUOTE !in key
  {
    AlgorithmFacts();
  }

  /** Reading back the key id of a printed header gives exactly the subscriber, the key
      and the algorithm printed, if and only if both identifiers are trimmed and free of
      quotes and bars. */
  lemma KeyIdRoundTrip(sub: string, key: string, created: int, expires: int, withRequest: bool, tail: string)
    ensures ParseHeader(Quoted(Lead(sub, key, created, expires, withRequest), tail)) == Parsed(sub, key, ALGORITHM)
       <==> Plain(sub) && Plain(key)
  {
    var header := Quoted(Lead(sub, key, created, expires, withRequest), tail);
    KeyIdAttribute(sub, key, created, expires, withRequest, tail);
    var rest :| After(header, "keyId=" + [QUOTE]) == Some(KeyId(sub, key) + [QUOTE] + rest);
    UpToQuoteFacts(KeyId(sub, key), rest);
    var value := UpToQuote(KeyId(sub, key) + [QUOTE] + rest).value;
    assert ValueOf(header, "keyId=" + [QUOTE]) == Some(value);
    if Plain(sub) && Plain(key) {
      KeyIdIsQuoteFree(sub, key);
      PlainReadsBack(sub, key, header);
    } else {
      ParsedIsPlain(value, header);
    }
  }

  lemma PlainReadsBack(sub: string, key: string, header: string)
    requires Plain(sub) && Plain(key) && ValueOf(header, "keyId=" + [QUOTE]) == Some(KeyId(sub, key))
    ensures ParseHeader(header) == Parsed(sub, key, ALGORITHM)
  {
    KeyIdIsTrimmed(sub, key);
    KeyIdSplits(sub, key);
    AlgorithmFacts();
    TrimSpaceFacts(sub);
    TrimSpaceFacts(key);
    TrimSpaceFacts(ALGORITHM);
  }

  /** Whatever is read from a quote-free value is plain. */
  lemma ParsedIsPlain(value: string, header: string)
    requires ValueOf(header, "keyId=" + [QUOTE]) == Some(value) && QUOTE !in value
    ensures ParseHeader(header).Parsed? ==> Plain(ParseHeader(header).subscriberId) && Plain(ParseHeader(header).uniqueId)
  {
    TrimSpaceFacts(value);
    var part := TrimSpace(value);
    var parts := Split(part, '|');
    SplitParts(part, '|');
    forall i | 0 <= i < |parts| ensures Plain(TrimSpace(parts[i])) {
      TrimSpaceFacts(parts[i]);
    }
    assert ParseHeader(header).Parsed? ==> |parts| == 3;
  }

  lemma FieldsAreQuoteFree(withRequest: bool)
    ensures QUOTE !in CoveredFields(withRequest) && CoveredFields(withRequest) != ""
    ensures CoveredFields(withRequest)[|CoveredFields(withRequest)| - 1] != '='
    ensures 'q' !in PLAIN_FIELDS && 'q' in REQUEST_SIGNATURE
  {
    assert REQUEST_SIGNATURE[2] == 'q';
  }

  lemma NamesAreQuoteFree()
    ensures QUOTE !in "Signature keyId=" && QUOTE !in ",algorithm=" && QUOTE !in ",created="
    ensures QUOTE !in ",expires=" && QUOTE !in ",headers=" && QUOTE !in ",signature="
  {
  }

  lemma LeadIsQuoteFree(sub: string, key: string, created: int, expires: int, withRequest: bool, i: nat)
    requires QUOTE !in sub && QUOTE !in key && i < 11
    ensures QUOTE !in Lead(sub, key, created, expires, withRequest)[i]
  {
    if i % 2 == 0 {
      NamesAreQuoteFree();
    } else if i == 1 {
      KeyIdIsQuoteFree(sub, key);
    } else if i == 3 {
      AlgorithmFacts();
    } else if i == 9 {
      FieldsAreQuoteFree(withRequest);
    } else {
      DecimalFacts(created);
      DecimalFacts(expires);
    }
  }

  /** A suffix agrees with the string counted from the end. */
  lemma SuffixAt(s: string, suffix: string, k: nat)
    requires k < |suffix|
    ensures HasSuffix(s, suffix) ==> s[|s| - 1 - k] == suffix[|suffix| - 1 - k]
  {
  }

  /** No value chunk, and no other name, is taken for the one looked for. */
  lemma OnlyItsOwnName(sub: string, key: string, created: int, expires: int, withRequest: bool, i: nat)
    requires i < 10
    ensures !HasSuffix(Lead(sub, key, created, expires, withRequest)[i], ",signature=")
    ensures i < 8 ==> !HasSuffix(Lead(sub, key, created, expires, withRequest)[i], "headers=")
  {
    var chunk := Lead(sub, key, created, expires, withRequest)[i];
    if i % 2 == 1 {
      AlgorithmFacts();
      DecimalFacts(created);
      DecimalFacts(expires);
      FieldsAreQuoteFree(withRequest);
      assert chunk != "" && chunk[|chunk| - 1] != '=';
      SuffixAt(chunk, ",signature=", 0);
      SuffixAt(chunk, "headers=", 0);
    } else {
      NamesDiffer(chunk, i);
    }
  }

  lemma NamesDiffer(name: string, i: nat)
    requires i < 10 && i % 2 == 0
    requires name == if i == 0 then "Signature keyId=" else if i == 2 then ",algorithm=" else if i == 4 then ",created="
                     else if i == 6 then ",expires=" else ",headers="
    ensures !HasSuffix(name, ",signature=") && (i < 8 ==> !HasSuffix(name, "headers="))
  {
    SuffixAt(name, ",signature=", 2);
    SuffixAt(name, "headers=", 2);
  }

  /** The signature read back is the one printed, if and only if it is free of quotes. */
  lemma SignatureRoundTrip(sub: string, key: string, created: int, expires: int, withRequest: bool, signature: string)
    requires QUOTE !in sub && QUOTE !in key
    ensures ExtractSignature(Quoted(Lead(sub, key, created, expires, withRequest), signature + [QUOTE])) == signature
       <==> QUOTE !in signature
  {
    AfterLead(sub, key, created, expires, withRequest, signature + [QUOTE]);
    UpToQuoteFacts(signature, "");
    assert signature + [QUOTE] + "" == signature + [QUOTE];
  }

  /** What follows the last attribute's name is whatever was printed there. */
  lemma AfterLead(sub: string, key: string, created: int, expires: int, withRequest: bool, tail: string)
    requires QUOTE !in sub && QUOTE !in key
    ensures After(Quoted(Lead(sub, key, created, expires, withRequest), tail), ",signature=" + [QUOTE]) == Some(tail)
  {
    var lead := Lead(sub, key, created, expires, withRequest);
    forall i | 0 <= i < 11 ensures QUOTE !in lead[i] {
      LeadIsQuoteFree(sub, key, created, expires, withRequest, i);
    }
    forall i | 0 <= i < 10 ensures !HasSuffix(lead[i], ",signature=") {
      OnlyItsOwnName(sub, key, created, expires, withRequest, i);
    }
    FindChunk(lead, tail, ",signature=", 10);
    assert lead[11..] == [];
  }

  lemma {:induction false} IndexNeedsEveryChar(s: string, pat: string, c: char)
    requires pat != "" && c in pat && c !in s
    ensures Index(s, pat) < 0
  {
    var k :| 0 <= k < |pat| && pat[k] == c;
    assert k < |s| ==> s[k] != pat[k];
    if s != "" {
      IndexNeedsEveryChar(s[1..], pat, c);
    }
  }

  lemma {:induction false} IndexFinds(pre: string, pat: string)
    requires pat != ""
    ensures Index(pre + pat, pat) >= 0
  {
    var s := pre + pat;
    if pre == "" {
      assert s == pat;
    } else if !HasPrefix(s, pat) {
      assert s[1..] == pre[1..] + pat;
      IndexFinds(pre[1..], pat);
    }
  }

  /** The test for a covered request signature answers true exactly when the header was
      printed with one. */
  lemma RequestSigRoundTrip(sub: string, key: string, created: int, expires: int, withRequest: bool, tail: string)
    requires QUOTE !in sub && QUOTE !in key
    ensures IncludesRequestSig(Quoted(Lead(sub, key, created, expires, withRequest), tail)) <==> withRequest
  {
    var lead := Lead(sub, key, created, expires, withRequest);
    forall i | 0 <= i < 11 ensures QUOTE !in lead[i] {
      LeadIsQuoteFree(sub, key, created, expires, withRequest, i);
    }
    forall i | 0 <= i < 8 ensures !HasSuffix(lead[i], "headers=") {
      OnlyItsOwnName(sub, key, created, expires, withRequest, i);
    }
    assert HasSuffix(lead[8], "headers=") by {
      assert lead[8] == "," + "headers=";
    }
    FindChunk(lead, tail, "headers=", 8);
    var rest := Quoted(lead[10..], tail);
    assert lead[9..][1..] == lead[10..];
    assert Quoted(lead[9..], tail) == lead[9] + [QUOTE] + rest;
    UpToQuoteFacts(lead[9], rest);
    if withRequest {
      IndexFinds(PLAIN_FIELDS + " ", REQUEST_SIGNATURE);
    } else {
      FieldsAreQuoteFree(withRequest);
      IndexNeedsEveryChar(PLAIN_FIELDS, REQUEST_SIGNATURE, 'q');
    }
  }

  /** Both printers' headers read back as printed. */
  lemma HeadersRoundTrip(sub: string, key: string, created: int, expires: int, signature: string, requestSig: string)
    requires Plain(sub) && Plain(key) && QUOTE !in signature
    ensures var auth := GenerateAuthHeader(sub, key, created, expires, signature, requestSig);
            && ParseHeader(auth) == Parsed(sub, key, "ed25519")
            && ExtractSignature(auth) == signature
            && (IncludesRequestSig(auth) <==> requestSig != "")
    ensures var answer := BuildSignatureHeader(sub, key, created, expires, signature);
            && ParseHeader(answer) == Parsed(sub, key, "ed25519")
            && ExtractSignature(answer) == signature
            && IncludesRequestSig(answer)
  {
    KeyIdRoundTrip(sub, key, created, expires, requestSig != "", signature + [QUOTE]);
    SignatureRoundTrip(sub, key, created, expires, requestSig != "", signature);
    RequestSigRoundTrip(sub, key, created, expires, requestSig != "", signature + [QUOTE]);
    KeyIdRoundTrip(sub, key, created, expires, true, signature + [QUOTE]);
    SignatureRoundTrip(sub, key, created, expires, true, signature);
    RequestSigRoundTrip(sub, key, created, expires, true, signature + [QUOTE]);
  }

  // -------------------------------------------------------------- the wording

  /** Names with their values in quotes, one after the other, and the quote before the last. */
  function InPairs(chunks: seq<string>, tail: string): string {
    if |chunks| == 0 then tail
    else if |chunks| == 1 then chunks[0] + ("\"" + tail)
    else chunks[0] + ("\"" + (chunks[1] + ("\"" + InPairs(chunks[2..], tail))))
  }

  lemma {:induction false} QuotedIsPairs(chunks: seq<string>, tail: string)
    ensures Quoted(chunks, tail) == InPairs(chunks, tail)
  {
    var q := [QUOTE];
    assert q == "\"";
    if |chunks| == 1 {
      assert chunks[1..] == [];
      Regroup(chunks[0], q, tail);
    } else if |chunks| > 1 {
      QuotedIsPairs(chunks[2..], tail);
      assert chunks[1..][1..] == chunks[2..] && chunks[1..][0] == chunks[1];
      Regroup(chunks[0], q, Quoted(chunks[1..], tail));
      Regroup(chunks[1], q, Quoted(chunks[2..], tail));
    }
  }

  /** The wording of a header: these names with these values, each value in quotes. */
  lemma HeaderText(sub: string, key: string, created: int, expires: int, withRequest: bool, tail: string)
    ensures var lead := Lead(sub, key, created, expires, withRequest);
            && Quoted(lead, tail) == InPairs(lead, tail) && |lead| == 11
            && lead[0] == "Signature keyId=" && lead[1] == sub + "|" + (key + "|" + "ed25519")
            && lead[2] == ",algorithm=" && lead[3] == "ed25519"
            && lead[4] == ",created=" && lead[5] == Decimal(created)
            && lead[6] == ",expires=" && lead[7] == Decimal(expires)
            && lead[8] == ",headers=" && lead[9] == CoveredFields(withRequest)
            && lead[10] == ",signature="
  {
    QuotedIsPairs(Lead(sub, key, created, expires, withRequest), tail);
  }

  lemma CoveredFieldsAre()
    ensures CoveredFields(false) == "(created) (expires) digest"
    ensures CoveredFields(true) == "(created) (expires) digest" + " " + "request-signature"
  {
  }

  predicate AllDigits(s: string) {
    forall i :: 0 <= i < |s| ==> '0' <= s[i] <= '9'
  }

  function ValueOfDigits(s: string): nat
    requires AllDigits(s)
  {
    if s == "" then 0
    else
      var last := s[|s| - 1];
      ValueOfDigits(s[..|s| - 1]) * 10 + if '0' <= last then last as int - '0' as int else 0
  }

  /** Times are printed in decimal. */
  lemma {:induction false} DigitsRead(n: nat)
    ensures AllDigits(Digits(n)) && ValueOfDigits(Digits(n)) == n
  {
    DigitsAreDigits(n);
    if n >= 10 {
      DigitsRead(n / 10);
      assert Digits(n)[..|Digits(n)| - 1] == Digits(n / 10);
    } else {
      assert Digits(n)[..0] == "";
    }
  }
}

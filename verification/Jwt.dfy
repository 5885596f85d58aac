/** The access tokens of src/brain/api/auth.py: base64url without padding (section 5 of RFC 4648, Appendix C of RFC
    7515), and the compact three-part form signed by HMAC.

    JSON and HMAC are parameters; the clock reading is an argument. */
module Jwt {
  import opened Options
  import opened Texts

  type byte = x: int | 0 <= x < 256

  // ----- base64url -----

  /** The symbol for six bits. */
  function Symbol(n: nat): char
    requires n < 64
  {
    if n < 26 then (n + 65) as char
    else if n < 52 then (n + 71) as char
    else if n < 62 then (n - 4) as char
    else if n == 62 then '-' else '_'
  }

  /** The six bits of a character, -1 for one outside the alphabet.  The decoder also takes the standard alphabet. */
  function Sextet(c: char): (v: int)
    ensures -1 <= v < 64
  {
    if 'A' <= c <= 'Z' then c as int - 65
    else if 'a' <= c <= 'z' then c as int - 71
    else if '0' <= c <= '9' then c as int + 4
    else if c == '-' || c == '+' then 62
    else if c == '_' || c == '/' then 63
    else -1
  }

  lemma SymbolReads(n: nat)
    requires n < 64
    ensures Sextet(Symbol(n)) == n && Symbol(n) != '=' && Symbol(n) != '.' && Symbol(n) as int < 128
  {}

  /** `urlsafe_b64encode`: four symbols for three bytes, the last group padded. */
  function Padded(bytes: seq<byte>): string {
    if bytes == [] then ""
    else if |bytes| == 1 then [Symbol(bytes[0] / 4), Symbol(bytes[0] % 4 * 16), '=', '=']
    else if |bytes| == 2 then
      [Symbol(bytes[0] / 4), Symbol(bytes[0] % 4 * 16 + bytes[1] / 16), Symbol(bytes[1] % 16 * 4), '=']
    else
      [Symbol(bytes[0] / 4), Symbol(bytes[0] % 4 * 16 + bytes[1] / 16),
       Symbol(bytes[1] % 16 * 4 + bytes[2] / 64), Symbol(bytes[2] % 64)] + Padded(bytes[3..])
  }

  function StripPadding(text: string): string {
    if text != "" && text[|text| - 1] == '=' then StripPadding(text[..|text| - 1]) else text
  }

  function Encode(bytes: seq<byte>): string { StripPadding(Padded(bytes)) }

  /** How much is left over from a symbol to the next byte. */
  predicate Leftover(quad: nat, left: nat) {
    quad <= 3 && left < (if quad == 0 then 1 else if quad == 1 then 64 else if quad == 2 then 16 else 4)
  }

  function Before(b: byte, rest: Option<seq<byte>>): Option<seq<byte>> {
    match rest
    case Some(bytes) => Some([b] + bytes)
    case None => None
  }

  /** `urlsafe_b64decode` on ASCII text, one character at a time: `quad` is the position in the group of four, `left`
      the bits left over, `pads` the padding met.  Characters outside the alphabet are skipped, complete padding ends
      the text, and a group cut short is an error. */
  function Scan(text: string, quad: nat, left: nat, pads: nat): Option<seq<byte>>
    requires Leftover(quad, left)
    decreases |text|
  {
    if text == "" then
      if quad == 0 then Some([]) else None
    else if text[0] == '=' then
      if quad >= 2 && quad + pads + 1 >= 4 then Some([])
      else Scan(text[1..], quad, left, if quad >= 2 then pads + 1 else pads)
    else
      var v := Sextet(text[0]);
      if v < 0 then Scan(text[1..], quad, left, pads)
      else if quad == 0 then Scan(text[1..], 1, v, 0)
      else if quad == 1 then Before(left * 4 + v / 16, Scan(text[1..], 2, v % 16, 0))
      else if quad == 2 then Before(left * 16 + v / 4, Scan(text[1..], 3, v % 4, 0))
      else Before(left * 64 + v, Scan(text[1..], 0, 0, 0))
  }

  predicate Ascii(text: string) { forall i :: 0 <= i < |text| ==> text[i] as int < 128 }

  function Pads(n: nat): string { seq(n, i => '=') }

  /** The padding the decoder puts back. */
  function PutBack(text: string): string {
    var padding := 4 - |text| % 4;
    if padding != 4 then text + Pads(padding) else text
  }

  function Decode(text: string): Option<seq<byte>> {
    if Ascii(text) then Scan(PutBack(text), 0, 0, 0) else None
  }

  // ----- decoding undoes encoding -----

  lemma ScanSymbol(n: nat, rest: string, quad: nat, left: nat, pads: nat)
    requires n < 64 && Leftover(quad, left)
    ensures Scan([Symbol(n)] + rest, quad, left, pads)
         == if quad == 0 then Scan(rest, 1, n, 0)
            else if quad == 1 then Before(left * 4 + n / 16, Scan(rest, 2, n % 16, 0))
            else if quad == 2 then Before(left * 16 + n / 4, Scan(rest, 3, n % 4, 0))
            else Before(left * 64 + n, Scan(rest, 0, 0, 0))
  {
    SymbolReads(n);
    var text := [Symbol(n)] + rest;
    assert text != "" && text[0] == Symbol(n) && text[1..] == rest;
    hide Symbol, Sextet, Before;
  }

  /** Complete padding ends the text. */
  lemma ScanPadding(left: nat)
    ensures left < 16 ==> Scan("==", 2, left, 0) == Some([])
    ensures left < 4 ==> Scan("=", 3, left, 0) == Some([])
  {
    assert "=="[1..] == "=";
  }

  lemma ScanOne(a: byte)
    ensures Scan([Symbol(a / 4), Symbol(a % 4 * 16), '=', '='], 0, 0, 0) == Some([a])
  {
    ScanSymbol(a / 4, [Symbol(a % 4 * 16)] + "==", 0, 0, 0);
    ScanSymbol(a % 4 * 16, "==", 1, a / 4, 0);
    ScanPadding(0);
    hide Scan, Symbol;
    assert [Symbol(a / 4), Symbol(a % 4 * 16), '=', '='] == [Symbol(a / 4)] + ([Symbol(a % 4 * 16)] + "==");
    assert a / 4 * 4 + a % 4 * 16 / 16 == a && a % 4 * 16 % 16 == 0;
    assert [a] + [] == [a];
  }

  lemma GroupArithmetic(a: byte, b: byte, c: byte)
    ensures var y, z := a % 4 * 16 + b / 16, b % 16 * 4 + c / 64;
            a / 4 * 4 + y / 16 == a && y % 16 * 16 + z / 4 == b && z % 4 * 64 + c % 64 == c
  {}

  lemma ScanTwo(a: byte, b: byte)
    ensures Scan([Symbol(a / 4), Symbol(a % 4 * 16 + b / 16), Symbol(b % 16 * 4), '='], 0, 0, 0) == Some([a, b])
  {
    var y, z := a % 4 * 16 + b / 16, b % 16 * 4;
    GroupArithmetic(a, b, 0);
    ScanSymbol(a / 4, [Symbol(y)] + ([Symbol(z)] + "="), 0, 0, 0);
    ScanSymbol(y, [Symbol(z)] + "=", 1, a / 4, 0);
    ScanSymbol(z, "=", 2, y % 16, 0);
    ScanPadding(0);
    hide Scan, Symbol;
    assert [Symbol(a / 4), Symbol(y), Symbol(z), '='] == [Symbol(a / 4)] + ([Symbol(y)] + ([Symbol(z)] + "="));
    assert [a] + ([b] + []) == [a, b];
  }

  /** A whole group: four symbols give three bytes. */
  lemma ScanGroup(x: nat, y: nat, z: nat, w: nat, rest: string)
    requires x < 64 && y < 64 && z < 64 && w < 64
    ensures Scan([Symbol(x), Symbol(y), Symbol(z), Symbol(w)] + rest, 0, 0, 0)
         == Before(x * 4 + y / 16, Before(y % 16 * 16 + z / 4, Before(z % 4 * 64 + w, Scan(rest, 0, 0, 0))))
  {
    hide Scan, Symbol, Before;
    assert [Symbol(x), Symbol(y), Symbol(z), Symbol(w)] + rest
        == [Symbol(x)] + ([Symbol(y)] + ([Symbol(z)] + ([Symbol(w)] + rest)));
    ScanSymbol(x, [Symbol(y)] + ([Symbol(z)] + ([Symbol(w)] + rest)), 0, 0, 0);
    ScanSymbol(y, [Symbol(z)] + ([Symbol(w)] + rest), 1, x, 0);
    ScanSymbol(z, [Symbol(w)] + rest, 2, y % 16, 0);
    ScanSymbol(w, rest, 3, z % 4, 0);
  }

  lemma ScanThree(a: byte, b: byte, c: byte, rest: string)
    requires Scan(rest, 0, 0, 0).Some?
    ensures Scan([Symbol(a / 4), Symbol(a % 4 * 16 + b / 16), Symbol(b % 16 * 4 + c / 64), Symbol(c % 64)] + rest,
                 0, 0, 0)
         == Some([a, b, c] + Scan(rest, 0, 0, 0).value)
  {
    var y, z, w := a % 4 * 16 + b / 16, b % 16 * 4 + c / 64, c % 64;
    ScanGroup(a / 4, y, z, w, rest);
    hide Scan, Symbol;
    GroupArithmetic(a, b, c);
    assert [a] + ([b] + ([c] + Scan(rest, 0, 0, 0).value)) == [a, b, c] + Scan(rest, 0, 0, 0).value;
  }

  lemma {:induction false} ScanReads(bytes: seq<byte>)
    ensures Scan(Padded(bytes), 0, 0, 0) == Some(bytes)
  {
    if |bytes| == 1 {
      ScanOne(bytes[0]);
      hide Scan, Symbol;
      assert bytes == [bytes[0]];
    } else if |bytes| == 2 {
      ScanTwo(bytes[0], bytes[1]);
      hide Scan, Symbol;
      assert bytes == [bytes[0], bytes[1]];
    } else if |bytes| > 2 {
      ScanReads(bytes[3..]);
      ScanThree(bytes[0], bytes[1], bytes[2], Padded(bytes[3..]));
      hide Scan, Symbol;
      assert [bytes[0], bytes[1], bytes[2]] + bytes[3..] == bytes;
    }
  }

  /** Symbols only: nothing that pads, separates or is not ASCII. */
  predicate Symbols(text: string) {
    forall i :: 0 <= i < |text| ==> Sextet(text[i]) >= 0
  }

  lemma SymbolsAreSafe(text: string)
    requires Symbols(text)
    ensures '.' !in text && '=' !in text && Ascii(text) && StripPadding(text) == text
  {
    assert forall i :: 0 <= i < |text| ==> Sextet(text[i]) >= 0;
  }

  /** The symbols of a padded text. */
  function Unpadded(bytes: seq<byte>): string {
    if bytes == [] then ""
    else if |bytes| == 1 then Padded(bytes)[..2]
    else if |bytes| == 2 then Padded(bytes)[..3]
    else Padded(bytes)[..4] + Unpadded(bytes[3..])
  }

  lemma SymbolsJoin(a: string, b: string)
    requires Symbols(a) && Symbols(b)
    ensures Symbols(a + b)
  {}

  lemma {:induction false} UnpaddedIsSafe(bytes: seq<byte>)
    ensures Symbols(Unpadded(bytes)) && |Unpadded(bytes)| == (4 * |bytes| + 2) / 3
  {
    forall n | 0 <= n < 64 ensures Sextet(Symbol(n)) >= 0 {
      SymbolReads(n);
    }
    hide Symbol, Sextet;
    if |bytes| > 2 {
      UnpaddedIsSafe(bytes[3..]);
      SymbolsJoin(Padded(bytes)[..4], Unpadded(bytes[3..]));
    }
  }

  lemma PutBackGroup(group: string, rest: string)
    requires |group| == 4
    ensures PutBack(group + rest) == group + PutBack(rest)
  {
    var padding := 4 - |rest| % 4;
    assert (4 + |rest|) % 4 == |rest| % 4;
    if padding != 4 {
      assert group + rest + Pads(padding) == group + (rest + Pads(padding));
    }
  }

  lemma PutBackShort(text: string)
    ensures |text| == 2 ==> PutBack(text) == text + "=="
    ensures |text| == 3 ==> PutBack(text) == text + "="
  {}

  /** A padded text is its symbols and just the padding that is put back. */
  lemma {:induction false} PutBackPads(bytes: seq<byte>)
    ensures PutBack(Unpadded(bytes)) == Padded(bytes)
  {
    hide Symbol;
    if |bytes| > 2 {
      var group, rest := Padded(bytes)[..4], Unpadded(bytes[3..]);
      assert Padded(bytes) == group + Padded(bytes[3..]) && Unpadded(bytes) == group + rest;
      PutBackPads(bytes[3..]);
      hide PutBack, Padded, Unpadded;
      PutBackGroup(group, rest);
    } else if bytes != [] {
      PutBackShort(Unpadded(bytes));
      hide PutBack;
    }
  }

  lemma {:induction false} StripPads(text: string, n: nat)
    requires StripPadding(text) == text
    ensures StripPadding(text + Pads(n)) == text
  {
    if n > 0 {
      assert (text + Pads(n))[..|text| + n - 1] == text + Pads(n - 1);
      StripPads(text, n - 1);
    } else {
      assert text + Pads(0) == text;
    }
  }

  /** What is encoded is url-safe and of the expected length. */
  lemma EncodedIsSafe(bytes: seq<byte>)
    ensures Symbols(Encode(bytes)) && '.' !in Encode(bytes) && |Encode(bytes)| == (4 * |bytes| + 2) / 3
    ensures PutBack(Encode(bytes)) == Padded(bytes)
  {
    var symbols := Unpadded(bytes);
    UnpaddedIsSafe(bytes);
    PutBackPads(bytes);
    hide Padded, Unpadded, Symbols;
    SymbolsAreSafe(symbols);
    var padding := 4 - |symbols| % 4;
    if padding != 4 {
      StripPads(symbols, padding);
    }
    assert Encode(bytes) == symbols;
  }

  /** Decoding inverts encoding, for every number of bytes. */
  lemma DecodeUndoesEncode(bytes: seq<byte>)
    ensures Decode(Encode(bytes)) == Some(bytes)
  {
    EncodedIsSafe(bytes);
    SymbolsAreSafe(Encode(bytes));
    ScanReads(bytes);
  }

  // ----- what does not decode -----

  function SymbolCount(text: string): nat {
    if text == "" then 0
    else SymbolCount(text[..|text| - 1]) + (if Sextet(text[|text| - 1]) >= 0 then 1 else 0)
  }

  /** The padding characters since the last symbol. */
  function PadsAtEnd(text: string): nat {
    if text == "" then 0
    else if text[|text| - 1] == '=' then PadsAtEnd(text[..|text| - 1]) + 1
    else if Sextet(text[|text| - 1]) >= 0 then 0
    else PadsAtEnd(text[..|text| - 1])
  }

  /** The text ends with padding that completes a group of at least two symbols. */
  predicate Completed(text: string) {
    text != "" && text[|text| - 1] == '=' && SymbolCount(text) % 4 >= 2 && SymbolCount(text) % 4 + PadsAtEnd(text) >= 4
  }

  /** Some first part of the text is completed, so that the rest is not looked at. */
  predicate EndsEarly(text: string) {
    text != "" && (EndsEarly(text[..|text| - 1]) || Completed(text))
  }

  /** A text that is not ASCII, or whose symbols come in an incomplete group without padding that completes one. */
  predicate Undecodable(text: string) {
    !Ascii(text) || (SymbolCount(PutBack(text)) % 4 != 0 && !EndsEarly(PutBack(text)))
  }

  lemma {:induction false} StillEndsEarly(text: string, rest: string)
    requires EndsEarly(text)
    ensures EndsEarly(text + rest)
  {
    if rest == "" {
      assert text + rest == text;
    } else {
      StillEndsEarly(text, rest[..|rest| - 1]);
      assert (text + rest)[..|text + rest| - 1] == text + rest[..|rest| - 1];
    }
  }

  /** The decoder's state after the text `done`. */
  ghost predicate After(done: string, quad: nat, left: nat, pads: nat) {
    && Leftover(quad, left) && quad == SymbolCount(done) % 4 && !EndsEarly(done)
    && pads == if quad >= 2 then PadsAtEnd(done) else 0
  }

  lemma OneMoreCharacter(done: string, c: char)
    ensures SymbolCount(done + [c]) == SymbolCount(done) + (if Sextet(c) >= 0 then 1 else 0)
    ensures PadsAtEnd(done + [c]) == if c == '=' then PadsAtEnd(done) + 1
                                     else if Sextet(c) >= 0 then 0 else PadsAtEnd(done)
    ensures EndsEarly(done + [c]) <==> EndsEarly(done) || Completed(done + [c])
    ensures Completed(done + [c]) <==>
              c == '=' && SymbolCount(done) % 4 >= 2 && SymbolCount(done) % 4 + PadsAtEnd(done) + 1 >= 4
    ensures c == '=' ==> Sextet(c) < 0
  {
    assert (done + [c])[..|done|] == done;
    assert c == '=' ==> Sextet(c) < 0;
    hide Sextet;
  }

  lemma NextState(done: string, c: char, quad: nat, left: nat, pads: nat)
    requires After(done, quad, left, pads)
    ensures var v := Sextet(c);
            if c == '=' then
              if quad >= 2 && quad + pads + 1 >= 4 then EndsEarly(done + [c])
              else After(done + [c], quad, left, if quad >= 2 then pads + 1 else pads)
            else if v < 0 then After(done + [c], quad, left, pads)
            else After(done + [c], (quad + 1) % 4,
                       if quad == 0 then v else if quad == 1 then v % 16 else if quad == 2 then v % 4 else 0, 0)
  {
    OneMoreCharacter(done, c);
    hide Sextet, SymbolCount, PadsAtEnd, EndsEarly, Completed;
    NextRemainder(SymbolCount(done));
  }

  lemma NextRemainder(n: nat)
    ensures (n + 1) % 4 == (n % 4 + 1) % 4
  {}

  lemma {:induction false} ScanFailsIff(done: string, rest: string, quad: nat, left: nat, pads: nat)
    requires After(done, quad, left, pads)
    ensures Scan(rest, quad, left, pads) == None
       <==> SymbolCount(done + rest) % 4 != 0 && !EndsEarly(done + rest)
    decreases |rest|
  {
    hide Sextet, SymbolCount, PadsAtEnd, EndsEarly, Completed;
    if rest == "" {
      assert done + rest == done;
    } else {
      var c, tail := rest[0], rest[1..];
      var v := Sextet(c);
      NextState(done, c, quad, left, pads);
      assert done + rest == done + [c] + tail;
      ScanStep(rest, quad, left, pads);
      hide Scan, After;
      if c == '=' && quad >= 2 && quad + pads + 1 >= 4 {
        StillEndsEarly(done + [c], tail);
      } else if c == '=' {
        ScanFailsIff(done + [c], tail, quad, left, if quad >= 2 then pads + 1 else pads);
      } else if v < 0 {
        ScanFailsIff(done + [c], tail, quad, left, pads);
      } else {
        ScanFailsIff(done + [c], tail, (quad + 1) % 4,
                     if quad == 0 then v else if quad == 1 then v % 16 else if quad == 2 then v % 4 else 0, 0);
      }
    }
  }

  /** Whether the decoder fails does not depend on the byte a character completes. */
  lemma ScanStep(text: string, quad: nat, left: nat, pads: nat)
    requires text != "" && Leftover(quad, left)
    ensures var c, tail, v := text[0], text[1..], Sextet(text[0]);
            Scan(text, quad, left, pads) == None
            <==> if c == '=' && quad >= 2 && quad + pads + 1 >= 4 then false
                 else if c == '=' then Scan(tail, quad, left, if quad >= 2 then pads + 1 else pads) == None
                 else if v < 0 then Scan(tail, quad, left, pads) == None
                 else Scan(tail, (quad + 1) % 4,
                           if quad == 0 then v else if quad == 1 then v % 16 else if quad == 2 then v % 4 else 0, 0)
                      == None
  {
    hide Sextet;
  }

  /** Exactly which texts fail to decode. */
  lemma DecodeFailsIff(text: string)
    ensures Decode(text) == None <==> Undecodable(text)
  {
    if Ascii(text) {
      assert "" + PutBack(text) == PutBack(text);
      ScanFailsIff("", PutBack(text), 0, 0, 0);
    }
  }

  lemma {:induction false} PadsAppended(text: string, n: nat)
    requires '=' !in text
    ensures var k := SymbolCount(text) % 4;
            && SymbolCount(text + Pads(n)) == SymbolCount(text) && PadsAtEnd(text + Pads(n)) == n
            && (EndsEarly(text + Pads(n)) <==> k >= 2 && k + n >= 4)
  {
    if n == 0 {
      assert text + Pads(0) == text;
      NoPads(text);
    } else {
      PadsAppended(text, n - 1);
      assert text + Pads(n) == text + Pads(n - 1) + ['='];
      OneMoreCharacter(text + Pads(n - 1), '=');
      hide SymbolCount, PadsAtEnd, EndsEarly, Completed;
    }
  }

  lemma {:induction false} NoPads(text: string)
    requires '=' !in text
    ensures PadsAtEnd(text) == 0 && !EndsEarly(text)
  {
    if text != "" {
      NoPads(text[..|text| - 1]);
    }
  }

  /** In particular, text without '=' fails to decode if and only if it is not ASCII, or one symbol is left over after
      the groups of four, or two or three are and its length gets too little padding put back. */
  lemma UnpaddedFailsIff(text: string)
    requires '=' !in text
    ensures var k, padding := SymbolCount(text) % 4, MissingPads(text);
            Decode(text) == None <==> !Ascii(text) || k == 1 || (k > 1 && k + padding < 4)
  {
    DecodeFailsIff(text);
    PadsAppended(text, MissingPads(text));
    PutBackIs(text);
    assert Undecodable(text) <==> !Ascii(text) || (SymbolCount(PutBack(text)) % 4 != 0 && !EndsEarly(PutBack(text)));
    hide *;
  }

  /** How much padding is put back. */
  function MissingPads(text: string): nat {
    if |text| % 4 == 0 then 0 else 4 - |text| % 4
  }

  lemma PutBackIs(text: string)
    ensures PutBack(text) == text + Pads(MissingPads(text))
  {
    assert text + Pads(0) == text;
  }

  lemma {:induction false} SymbolsCount(text: string)
    requires Symbols(text)
    ensures SymbolCount(text) == |text|
  {
    if text != "" {
      SymbolsCount(text[..|text| - 1]);
    }
  }

  /** And text of symbols only fails to decode if and only if it is one longer than a multiple of four. */
  lemma SymbolsFailIff(text: string)
    requires Symbols(text)
    ensures Decode(text) == None <==> |text| % 4 == 1
  {
    SymbolsAreSafe(text);
    SymbolsCount(text);
    UnpaddedFailsIff(text);
    assert MissingPads(text) == if |text| % 4 == 0 then 0 else 4 - |text| % 4;
    hide *;
  }

  // ----- tokens -----

  const ISSUER := "velaflow-api"
  const AUDIENCE := "velaflow-api"

  /** JSON values, as far as claims need them. */
  datatype Value = Text(text: string) | Number(number: int) | Other

  /** A parsed JSON document. */
  datatype Document = Object(fields: map<string, Value>) | NoObject

  datatype Claims = Claims(tenant: Value, role: Value, email: Value, exp: int, iat: Value, userId: Value,
                           userRole: Value)

  /** What `verify_token` does: it returns claims, returns None, or raises an exception. */
  datatype Outcome = Accepted(claims: Claims) | Rejected | Raised

  /** `dumps` and `loads` include UTF-8; `header` is the encoded constant header document. */
  datatype Codec = Codec(dumps: map<string, Value> -> seq<byte>, loads: seq<byte> -> Option<Document>,
                         header: seq<byte>, hmac: (string, string) -> seq<byte>)
  {
    ghost predicate Sound() {
      forall fields :: loads(dumps(fields)) == Some(Object(fields))
    }
  }

  /** The secret in force: the caller's, or else the configured one. */
  function Secret(given: string, configured: string): Option<string> {
    if given != "" then Some(given) else if configured != "" then Some(configured) else None
  }

  datatype Identity = Identity(tenant: string, role: string, email: string, userId: string, userRole: string)

  function Payload(who: Identity, now: int, expiry: int): map<string, Value> {
    var base := map["tenant_id" := Text(who.tenant), "role" := Text(who.role), "email" := Text(who.email),
                    "iss" := Text(ISSUER), "aud" := Text(AUDIENCE), "iat" := Number(now),
                    "exp" := Number(now + expiry)];
    var withId := if who.userId != "" then base["user_id" := Text(who.userId)] else base;
    if who.userRole != "" then withId["user_role" := Text(who.userRole)] else withId
  }

  function SigningInput(header: string, payload: string): string { header + "." + payload }

  /** `create_access_token`; None stands for the error raised when there is no secret. */
  function CreateToken(codec: Codec, who: Identity, now: int, expiry: int, given: string, configured: string)
    : Option<string>
  {
    match Secret(given, configured)
    case None => None
    case Some(secret) =>
      var header := Encode(codec.header);
      var payload := Encode(codec.dumps(Payload(who, now, expiry)));
      var signature := codec.hmac(secret, SigningInput(header, payload));
      Some(header + "." + payload + "." + Encode(signature))
  }

  function Get(fields: map<string, Value>, name: string, missing: Value): Value {
    if name in fields then fields[name] else missing
  }

  /** The checks after the signature: expiry, then issuer and audience. */
  function ReadClaims(fields: map<string, Value>, time: real): Outcome {
    var exp := Get(fields, "exp", Number(0));
    if !exp.Number? then Raised
    else if time > exp.number as real then Rejected
    else if Get(fields, "iss", Other) != Text(ISSUER) || Get(fields, "aud", Other) != Text(AUDIENCE) then Rejected
    else Accepted(Claims(Get(fields, "tenant_id", Text("")), Get(fields, "role", Text("")),
                         Get(fields, "email", Text("")), exp.number, Get(fields, "iat", Number(0)),
                         Get(fields, "user_id", Text("")), Get(fields, "user_role", Text(""))))
  }

  function ReadPayload(codec: Codec, payload: string, time: real): Outcome {
    match Decode(payload)
    case None => Rejected
    case Some(bytes) =>
      match codec.loads(bytes)
      case None => Rejected
      case Some(NoObject) => Raised
      case Some(Object(fields)) => ReadClaims(fields, time)
  }

  /** `verify_token` at the clock reading `time`. */
  function VerifyToken(codec: Codec, token: string, time: real, given: string, configured: string): Outcome {
    match Secret(given, configured)
    case None => Rejected
    case Some(secret) =>
      var parts := Split(token, '.');
      if |parts| != 3 then Rejected else
        match Decode(parts[2])
        case None => Raised
        case Some(actual) =>
          if codec.hmac(secret, SigningInput(parts[0], parts[1])) != actual then Rejected
          else ReadPayload(codec, parts[1], time)
  }

  function Expected(who: Identity, now: int, expiry: int): Claims {
    Claims(Text(who.tenant), Text(who.role), Text(who.email), now + expiry, Number(now), Text(who.userId),
           Text(who.userRole))
  }

  lemma ThreeParts(a: string, b: string, c: string)
    requires '.' !in a && '.' !in b && '.' !in c
    ensures Split(a + "." + b + "." + c, '.') == [a, b, c]
  {
    SplitOfOne(c, '.');
    SplitOfFirst(b, c, '.');
    SplitOfFirst(a, b + "." + c, '.');
    assert a + ['.'] + (b + "." + c) == a + "." + b + "." + c;
  }

  lemma PayloadReads(who: Identity, now: int, expiry: int, time: real)
    ensures ReadClaims(Payload(who, now, expiry), time)
         == if time > (now + expiry) as real then Rejected else Accepted(Expected(who, now, expiry))
  {}

  /** A created token is accepted, with the very claims it was created for, by whoever holds the secret, up to and
      including its expiry time, and by nobody else and at no later time. */
  lemma CreatedIsVerified(codec: Codec, who: Identity, now: int, expiry: int, secret: string, other: string,
                          time: real)
    requires codec.Sound() && secret != "" && other != ""
    ensures CreateToken(codec, who, now, expiry, secret, "").Some?
    ensures var input := SigningInput(Encode(codec.header), Encode(codec.dumps(Payload(who, now, expiry))));
            VerifyToken(codec, CreateToken(codec, who, now, expiry, secret, "").value, time, other, "")
            == if codec.hmac(other, input) != codec.hmac(secret, input) || time > (now + expiry) as real then Rejected
               else Accepted(Expected(who, now, expiry))
  {
    var fields := Payload(who, now, expiry);
    var header, payload := Encode(codec.header), Encode(codec.dumps(fields));
    var signature := codec.hmac(secret, SigningInput(header, payload));
    EncodedIsSafe(codec.header);
    EncodedIsSafe(codec.dumps(fields));
    EncodedIsSafe(signature);
    ThreeParts(header, payload, Encode(signature));
    DecodeUndoesEncode(signature);
    DecodeUndoesEncode(codec.dumps(fields));
    PayloadReads(who, now, expiry, time);
    hide Encode, Decode, Split, ReadClaims, Payload;
  }

  /** Two accepted tokens with the same signature carry the same claims, if the MAC tells messages apart. */
  lemma SignatureDetermines(codec: Codec, token: string, other: string, time: real, secret: string)
    requires forall s, t :: codec.hmac(secret, s) == codec.hmac(secret, t) ==> s == t
    requires secret != "" && |Split(token, '.')| == 3 == |Split(other, '.')|
    requires Decode(Split(token, '.')[2]) == Decode(Split(other, '.')[2])
    requires VerifyToken(codec, token, time, secret, "").Accepted?
    requires VerifyToken(codec, other, time, secret, "").Accepted?
    ensures VerifyToken(codec, token, time, secret, "") == VerifyToken(codec, other, time, secret, "")
    ensures Split(token, '.')[..2] == Split(other, '.')[..2]
  {
    var a, b := Split(token, '.'), Split(other, '.');
    SplitPartsAreFree(token, '.');
    SplitPartsAreFree(other, '.');
    hide Decode, ReadPayload, Split;
    assert SigningInput(a[0], a[1]) == SigningInput(b[0], b[1]);
    SplitOfOne(a[1], '.');
    SplitOfFirst(a[0], a[1], '.');
    SplitOfOne(b[1], '.');
    SplitOfFirst(b[0], b[1], '.');
    assert a[..2] == [a[0]] + [a[1]] && b[..2] == [b[0]] + [b[1]];
  }

  /** Verification promises claims or None, but raises exactly on a signature part that does not decode and, behind a
      good signature, on a payload that is no object or whose expiry is no number. */
  lemma RaisesIff(codec: Codec, token: string, time: real, given: string, configured: string)
    ensures var parts := Split(token, '.');
            (VerifyToken(codec, token, time, given, configured) == Raised
             <==> && Secret(given, configured).Some? && |parts| == 3
                  && (|| Undecodable(parts[2])
                      || (&& Decode(parts[2])
                             == Some(codec.hmac(Secret(given, configured).value, SigningInput(parts[0], parts[1])))
                          && Awkward(codec, parts[1]))))
  {
    if |Split(token, '.')| == 3 {
      DecodeFailsIff(Split(token, '.')[2]);
    }
    hide Decode, Split, Undecodable;
  }

  /** A payload the checks after the signature cannot read. */
  predicate Awkward(codec: Codec, payload: string) {
    match Decode(payload)
    case None => false
    case Some(bytes) =>
      match codec.loads(bytes)
      case None => false
      case Some(NoObject) => true
      case Some(Object(fields)) => !Get(fields, "exp", Number(0)).Number?
  }
}

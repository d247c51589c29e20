/** The server side of SCRAM-SHA-256 (RFC 5802, RFC 7677): splitting the client's messages, checking
    its proof, and signing the exchange. The cryptographic primitives and Base64 are parameters. */
module Scram {
  import opened Wrappers
  import opened Text

  type Bytes = seq<bv8>

  datatype Crypto = Crypto(
    hmac: (Bytes, string) -> Bytes,
    hash: Bytes -> Bytes,
    pbkdf2: (string, Bytes, nat) -> Bytes,
    encode: Bytes -> string,
    decode: string -> Option<Bytes>)

  predicate Base64Char(c: char) {
    '0' <= c <= '9' || 'a' <= c <= 'z' || 'A' <= c <= 'Z' || c == '+' || c == '/' || c == '='
  }

  /** All that is assumed of the primitives: digests have 32 bytes, and Base64 is an encoding in its
      own alphabet. */
  ghost predicate Laws(c: Crypto) {
    && (forall key, data :: |c.hmac(key, data)| == 32)
    && (forall data :: |c.hash(data)| == 32)
    && (forall data :: c.decode(c.encode(data)) == Some(data))
    && (forall data :: Plain64(c.encode(data)))
  }

  ghost predicate Plain64(s: string) {
    forall k :: 0 <= k < |s| ==> Base64Char(s[k])
  }

  datatype Error =
    | NoBarePart | MissingNonce | EmptyNonce | MissingProof | NonceMismatch | BadBase64 | BadLength | ProofMismatch
    | BadServerFirst | NonceNotExtended | BadIterations | BadSignature

  const MaxU32: nat := 0xFFFF_FFFF

  // ---- verifiers -----------------------------------------------------------------------------

  datatype Verifier = Verifier(salt: Bytes, iterations: nat, storedKey: Bytes, serverKey: Bytes)

  function FromPassword(c: Crypto, password: string, salt: Bytes, iterations: nat): Verifier {
    var salted := c.pbkdf2(password, salt, iterations);
    Verifier(salt, iterations, c.hash(c.hmac(salted, "Client Key")), c.hmac(salted, "Server Key"))
  }

  const Prefix := "SCRAM-SHA-256$"

  /** PostgreSQL's stored form. */
  function FormatVerifier(c: Crypto, v: Verifier): string {
    Prefix + (PrintNat(v.iterations, 10, false) + ":" + c.encode(v.salt)) + "$"
    + (c.encode(v.storedKey) + ":" + c.encode(v.serverKey))
  }

  function ParseVerifier(c: Crypto, s: string): Option<Verifier> {
    if !(Prefix <= s) then None
    else
      var parts := SplitOnce(s[|Prefix|..], '$');
      if parts.None? then None
      else
        var params, keys := SplitOnce(parts.value.0, ':'), SplitOnce(parts.value.1, ':');
        if params.None? || keys.None? then None
        else
          var iterations := ParseNat(params.value.0, 10, MaxU32);
          var salt := c.decode(Trim(params.value.1));
          var stored, server := c.decode(Trim(keys.value.0)), c.decode(Trim(keys.value.1));
          if iterations.None? || salt.None? || stored.None? || server.None? then None
          else if |stored.value| != 32 || |server.value| != 32 then None
          else Some(Verifier(salt.value, iterations.value, stored.value, server.value))
  }

  /** The text is a verifier exactly if it has the five parts, each in its form. */
  ghost predicate IsVerifier(c: Crypto, s: string, v: Verifier) {
    exists iterations, salt, stored, server ::
      && s == Prefix + (iterations + ":" + salt) + "$" + (stored + ":" + server)
      && VerifierParts(c, iterations, salt, stored, server, v)
  }

  ghost predicate VerifierParts(
    c: Crypto, iterations: string, salt: string, stored: string, server: string, v: Verifier)
  {
    && '$' !in iterations + ":" + salt && ':' !in iterations && ':' !in stored
    && ParseNat(iterations, 10, MaxU32) == Some(v.iterations)
    && c.decode(Trim(salt)) == Some(v.salt)
    && c.decode(Trim(stored)) == Some(v.storedKey) && |v.storedKey| == 32
    && c.decode(Trim(server)) == Some(v.serverKey) && |v.serverKey| == 32
  }

  /** For every text: what is read is what it says, and anything else is refused. */
  lemma ParseVerifierIff(c: Crypto, s: string, v: Verifier)
    ensures ParseVerifier(c, s) == Some(v) <==> IsVerifier(c, s, v)
  {
    hide SplitOnce, ParseNat, Trim;
    if ParseVerifier(c, s) == Some(v) {
      var rest := s[|Prefix|..];
      assert s == Prefix + rest;
      SplitOnceMeaning(rest, '$');
      var parts := SplitOnce(rest, '$').value;
      SplitOnceMeaning(parts.0, ':');
      SplitOnceMeaning(parts.1, ':');
      var params, keys := SplitOnce(parts.0, ':').value, SplitOnce(parts.1, ':').value;
      assert VerifierParts(c, params.0, params.1, keys.0, keys.1, v);
      assert s == Prefix + (params.0 + ":" + params.1) + "$" + (keys.0 + ":" + keys.1);
    }
    if IsVerifier(c, s, v) {
      var iterations, salt, stored, server :|
        && s == Prefix + (iterations + ":" + salt) + "$" + (stored + ":" + server)
        && VerifierParts(c, iterations, salt, stored, server, v);
      assert s[|Prefix|..] == (iterations + ":" + salt) + "$" + (stored + ":" + server);
      SplitOnceAt(iterations + ":" + salt, '$', stored + ":" + server);
      SplitOnceAt(iterations, ':', salt);
      SplitOnceAt(stored, ':', server);
    }
  }

  lemma Encoded(c: Crypto, data: Bytes)
    requires Laws(c)
    ensures var e := c.encode(data); ',' !in e && ':' !in e && '$' !in e && Trim(e) == e
  {
    var e := c.encode(data);
    assert Plain64(e);
    TrimClean(e);
  }

  /** A stored verifier is read back as it was written. */
  lemma VerifierRoundTrip(c: Crypto, v: Verifier)
    requires Laws(c)
    requires v.iterations <= MaxU32 && |v.storedKey| == |v.serverKey| == 32
    ensures ParseVerifier(c, FormatVerifier(c, v)) == Some(v)
  {
    var n := PrintNat(v.iterations, 10, false);
    var params, keys := n + ":" + c.encode(v.salt), c.encode(v.storedKey) + ":" + c.encode(v.serverKey);
    assert FormatVerifier(c, v)[|Prefix|..] == params + "$" + keys;
    Encoded(c, v.salt);
    Encoded(c, v.storedKey);
    Encoded(c, v.serverKey);
    assert '$' !in n && ':' !in n;
    SplitOnceAt(params, '$', keys);
    SplitOnceAt(n, ':', c.encode(v.salt));
    SplitOnceAt(c.encode(v.storedKey), ':', c.encode(v.serverKey));
    ParsePrint(v.iterations, 10, false, MaxU32);
  }

  // ---- the server ----------------------------------------------------------------------------

  datatype Server = Server(verifier: Verifier, combinedNonce: string, clientFirstBare: string, serverFirst: string)

  function ServerFirst(c: Crypto, v: Verifier, combined: string): string {
    Join(["r=" + combined, "s=" + c.encode(v.salt), "i=" + PrintNat(v.iterations, 10, false)], ',')
  }

  /** `start`: the bare part is what follows the second comma. */
  function Start(c: Crypto, v: Verifier, clientFirst: string, serverNonce: string): Result<Server, Error> {
    var flag := SplitOnce(clientFirst, ',');
    var authzid := if flag.None? then None else SplitOnce(flag.value.1, ',');
    if authzid.None? then Err(NoBarePart)
    else
      var bare := authzid.value.1;
      var nonce := FindField(Split(bare, ','), "r=");
      if nonce.None? then Err(MissingNonce)
      else if nonce.value == [] then Err(EmptyNonce)
      else
        var combined := nonce.value + serverNonce;
        Ok(Server(v, combined, bare, ServerFirst(c, v, combined)))
  }

  /** The client's first message: a flag, an identity, and the bare part after the second comma. */
  ghost predicate FirstMessage(m: string, flag: string, authzid: string, bare: string) {
    m == flag + "," + (authzid + "," + bare) && ',' !in flag && ',' !in authzid
  }

  /** For every first message: what `start` answers, and when. */
  lemma StartMeaning(c: Crypto, v: Verifier, clientFirst: string, serverNonce: string)
    ensures var r := Start(c, v, clientFirst, serverNonce);
            && (r == Err(NoBarePart) <==> forall flag, authzid, bare :: !FirstMessage(clientFirst, flag, authzid, bare))
            && (forall flag, authzid, bare :: FirstMessage(clientFirst, flag, authzid, bare) ==>
                  StartAnswer(c, v, bare, serverNonce, r))
  {
    hide SplitOnce, Split, FindField;
    var r := Start(c, v, clientFirst, serverNonce);
    SplitOnceMeaning(clientFirst, ',');
    forall flag, authzid, bare | FirstMessage(clientFirst, flag, authzid, bare)
      ensures SplitOnce(clientFirst, ',') == Some((flag, authzid + "," + bare))
      ensures SplitOnce(authzid + "," + bare, ',') == Some((authzid, bare))
      ensures StartAnswer(c, v, bare, serverNonce, r)
    {
      SplitOnceAt(flag, ',', authzid + "," + bare);
      SplitOnceAt(authzid, ',', bare);
      StartNonce(c, v, clientFirst, bare, serverNonce, flag, authzid);
    }
    if r != Err(NoBarePart) {
      var rest := SplitOnce(clientFirst, ',').value;
      SplitOnceMeaning(rest.1, ',');
      var parts := SplitOnce(rest.1, ',').value;
      assert FirstMessage(clientFirst, rest.0, parts.0, parts.1);
    }
  }

  /** The nonce is the first `r=` field of the bare part; it must be there and not be empty. */
  ghost predicate StartAnswer(c: Crypto, v: Verifier, bare: string, serverNonce: string, r: Result<Server, Error>) {
    && (r == Err(MissingNonce) <==> forall nonce :: !FirstTagged(bare, ',', "r=", nonce))
    && (r == Err(EmptyNonce) <==> FirstTagged(bare, ',', "r=", ""))
    && (forall nonce :: FirstTagged(bare, ',', "r=", nonce) && nonce != "" ==>
          r == Ok(Server(v, nonce + serverNonce, bare, ServerFirst(c, v, nonce + serverNonce))))
  }

  lemma StartNonce(
    c: Crypto, v: Verifier, clientFirst: string, bare: string, serverNonce: string, flag: string, authzid: string)
    requires SplitOnce(clientFirst, ',') == Some((flag, authzid + "," + bare))
    requires SplitOnce(authzid + "," + bare, ',') == Some((authzid, bare))
    ensures StartAnswer(c, v, bare, serverNonce, Start(c, v, clientFirst, serverNonce))
  {
    hide SplitOnce, Split, FindField, FirstTagged, ServerFirst;
    forall nonce
      ensures FindField(Split(bare, ','), "r=") == Some(nonce) <==> FirstTagged(bare, ',', "r=", nonce)
    {
      FieldMeaning(bare, ',', "r=", nonce);
    }
    var found := FindField(Split(bare, ','), "r=");
    assert found.Some? ==> FirstTagged(bare, ',', "r=", found.value);
  }

  function AuthMessage(bare: string, serverFirst: string, withoutProof: string): string {
    bare + "," + serverFirst + "," + withoutProof
  }

  function Xor(a: Bytes, b: Bytes): (r: Bytes)
    requires |a| == |b|
    ensures |r| == |a| && forall k :: 0 <= k < |a| ==> r[k] == a[k] ^ b[k]
  {
    seq(|a|, k requires 0 <= k < |a| => a[k] ^ b[k])
  }

  /** What `finish` must answer. */
  function Verdict(c: Crypto, s: Server, clientFinal: string): Result<string, Error>
    requires |s.verifier.storedKey| == 32 && forall key, data :: |c.hmac(key, data)| == 32
  {
    var pos := RFind(clientFinal, ",p=");
    if pos.None? then Err(MissingProof)
    else
      var withoutProof := clientFinal[..pos.value];
      var echoed := FindField(Split(withoutProof, ','), "r=");
      if echoed.None? then Err(MissingNonce)
      else if echoed.value != s.combinedNonce then Err(NonceMismatch)
      else
        var proof := c.decode(Trim(clientFinal[pos.value + 3..]));
        if proof.None? then Err(BadBase64)
        else if |proof.value| != 32 then Err(BadLength)
        else
          var message := AuthMessage(s.clientFirstBare, s.serverFirst, withoutProof);
          var clientKey := Xor(proof.value, c.hmac(s.verifier.storedKey, message));
          if c.hash(clientKey) != s.verifier.storedKey then Err(ProofMismatch)
          else Ok("v=" + c.encode(c.hmac(s.verifier.serverKey, message)))
  }

  lemma OrIsZero(d: bv8, x: bv8, y: bv8)
    ensures d | (x ^ y) == 0 <==> d == 0 && x == y
  {
  }

  /** Equality without an early exit. */
  method ConstantTimeEq(a: Bytes, b: Bytes) returns (eq: bool)
    requires |a| == |b| == 32
    ensures eq <==> a == b
  {
    var diff: bv8 := 0;
    for i := 0 to 32
      invariant diff == 0 <==> a[..i] == b[..i]
    {
      OrIsZero(diff, a[i], b[i]);
      assert a[..i + 1] == a[..i] + [a[i]] && b[..i + 1] == b[..i] + [b[i]];
      diff := diff | (a[i] ^ b[i]);
    }
    assert a[..32] == a && b[..32] == b;
    eq := diff == 0;
  }

  /** The answer to a second message that is `w`, a last `,p=`, and `t`. The nonce is the first `r=` field of
      `w`; the proof is `t` without white space around it. */
  ghost predicate FinalAnswer(c: Crypto, s: Server, w: string, t: string, r: Result<string, Error>)
    requires |s.verifier.storedKey| == 32 && forall key, data :: |c.hmac(key, data)| == 32
  {
    && (r == Err(MissingNonce) <==> forall nonce :: !FirstTagged(w, ',', "r=", nonce))
    && (r == Err(NonceMismatch) <==> exists nonce :: FirstTagged(w, ',', "r=", nonce) && nonce != s.combinedNonce)
    && (FirstTagged(w, ',', "r=", s.combinedNonce) ==>
          forall u :: TrimsTo(t, u) ==> ProofAnswer(c, s, s.clientFirstBare + "," + s.serverFirst + "," + w, u, r))
  }

  /** The answer to a proof in Base64: 32 bytes that, with the client signature taken off, hash to the stored
      key; then the server signs the same message. */
  ghost predicate ProofAnswer(c: Crypto, s: Server, message: string, u: string, r: Result<string, Error>)
    requires |s.verifier.storedKey| == 32 && forall key, data :: |c.hmac(key, data)| == 32
  {
    var proof := c.decode(u);
    if proof.None? then r == Err(BadBase64)
    else if |proof.value| != 32 then r == Err(BadLength)
    else if c.hash(Xor(proof.value, c.hmac(s.verifier.storedKey, message))) == s.verifier.storedKey then
      r == Ok("v=" + c.encode(c.hmac(s.verifier.serverKey, message)))
    else r == Err(ProofMismatch)
  }

  lemma VerdictNonce(c: Crypto, s: Server, clientFinal: string, w: string, t: string)
    requires |s.verifier.storedKey| == 32 && forall key, data :: |c.hmac(key, data)| == 32
    requires RFind(clientFinal, ",p=") == Some(|w|) && clientFinal == w + ",p=" + t
    ensures FinalAnswer(c, s, w, t, Verdict(c, s, clientFinal))
  {
    hide RFind, Split, FindField, Trim, TrimsTo, FirstTagged;
    var r := Verdict(c, s, clientFinal);
    assert clientFinal[..|w|] == w && clientFinal[|w| + 3..] == t;
    forall nonce
      ensures FindField(Split(w, ','), "r=") == Some(nonce) <==> FirstTagged(w, ',', "r=", nonce)
    {
      FieldMeaning(w, ',', "r=", nonce);
    }
    var found := FindField(Split(w, ','), "r=");
    assert found.Some? ==> FirstTagged(w, ',', "r=", found.value);
    TrimMeaning(t);
    forall u | TrimsTo(t, u) ensures u == Trim(t) {
      OneTrim(t, u, Trim(t));
    }
  }

  /** For every second message: without a `,p=` it is refused; with one, the last one counts. */
  lemma VerdictMeaning(c: Crypto, s: Server, clientFinal: string)
    requires |s.verifier.storedKey| == 32 && forall key, data :: |c.hmac(key, data)| == 32
    ensures var r := Verdict(c, s, clientFinal);
            && (r == Err(MissingProof) <==> forall j: nat :: !OccursAt(clientFinal, ",p=", j))
            && (forall w, t :: LastSplit(clientFinal, ",p=", w, t) ==> FinalAnswer(c, s, w, t, r))
  {
    hide RFind, FinalAnswer, Split, FindField, Trim;
    RFindMeaning(clientFinal, ",p=");
    var pos := RFind(clientFinal, ",p=");
    forall w, t | LastSplit(clientFinal, ",p=", w, t) ensures FinalAnswer(c, s, w, t, Verdict(c, s, clientFinal)) {
      assert OccursAt(clientFinal, ",p=", |w|);
      VerdictNonce(c, s, clientFinal, w, t);
    }
  }

  method Finish(c: Crypto, s: Server, clientFinal: string) returns (r: Result<string, Error>)
    requires Laws(c) && |s.verifier.storedKey| == 32
    ensures r == Verdict(c, s, clientFinal)
    ensures r == Err(MissingProof) <==> forall j: nat :: !OccursAt(clientFinal, ",p=", j)
    ensures forall w, t :: LastSplit(clientFinal, ",p=", w, t) ==> FinalAnswer(c, s, w, t, r)
  {
    hide Verdict, OccursAt, LastSplit, FinalAnswer;
    r := Decide(c, s, clientFinal);
    VerdictMeaning(c, s, clientFinal);
  }

  /** The body of `finish`. */
  method Decide(c: Crypto, s: Server, clientFinal: string) returns (r: Result<string, Error>)
    requires Laws(c) && |s.verifier.storedKey| == 32
    ensures r == Verdict(c, s, clientFinal)
  {
    hide RFind, Split, FindField, Trim;
    var pos := RFind(clientFinal, ",p=");
    if pos.None? {
      return Err(MissingProof);
    }
    var withoutProof, proof64 := clientFinal[..pos.value], clientFinal[pos.value + 3..];
    var echoed := FindField(Split(withoutProof, ','), "r=");
    if echoed.None? {
      return Err(MissingNonce);
    }
    if echoed.value != s.combinedNonce {
      return Err(NonceMismatch);
    }
    var proof := c.decode(Trim(proof64));
    if proof.None? {
      return Err(BadBase64);
    }
    if |proof.value| != 32 {
      return Err(BadLength);
    }
    var message := AuthMessage(s.clientFirstBare, s.serverFirst, withoutProof);
    var signature := c.hmac(s.verifier.storedKey, message);
    var clientKey := new bv8[32];
    for i := 0 to 32
      invariant forall k :: 0 <= k < i ==> clientKey[k] == proof.value[k] ^ signature[k]
    {
      clientKey[i] := proof.value[i] ^ signature[i];
    }
    assert clientKey[..] == Xor(proof.value, signature);
    var same := ConstantTimeEq(c.hash(clientKey[..]), s.verifier.storedKey);
    if !same {
      return Err(ProofMismatch);
    }
    return Ok("v=" + c.encode(c.hmac(s.verifier.serverKey, message)));
  }

  // ---- a client following section 5 of RFC 5802 ----------------------------------------------

  /** The parts a client may choose: the channel-binding flag, an authorization identity, the user
      name, its nonce, the channel-binding data, and extensions to both of its messages. */
  datatype Client = Client(
    flag: string, authzid: string, user: string, nonce: string, binding: string,
    extensions: seq<string>, finalExtensions: seq<string>)

  ghost predicate CommaFree(fields: seq<string>) {
    forall k :: 0 <= k < |fields| ==> ',' !in fields[k]
  }

  ghost predicate ValidClient(cl: Client) {
    && ',' !in cl.flag && ',' !in cl.authzid && ',' !in cl.user && ',' !in cl.nonce && ',' !in cl.binding
    && CommaFree(cl.extensions) && CommaFree(cl.finalExtensions)
    && cl.nonce != []
  }

  function BareFields(cl: Client): seq<string> {
    ["n=" + cl.user, "r=" + cl.nonce] + cl.extensions
  }

  function ClientFirst(cl: Client): string {
    cl.flag + "," + (cl.authzid + "," + Join(BareFields(cl), ','))
  }

  function FinalFields(cl: Client, combined: string): seq<string> {
    ["c=" + cl.binding, "r=" + combined] + cl.finalExtensions
  }

  /** The client's second message, and the server signature it will expect. */
  function ClientFinal(c: Crypto, cl: Client, serverFirst: string, password: string): Result<(string, Bytes), Error>
    requires forall key, data :: |c.hmac(key, data)| == 32
  {
    var fields := Split(serverFirst, ',');
    var combined, salt64, iter := LastField(fields, "r="), LastField(fields, "s="), LastField(fields, "i=");
    var iterations := if iter.None? then None else ParseNat(iter.value, 10, MaxU32);
    if combined.None? || salt64.None? || iterations.None? then Err(BadServerFirst)
    else if !(cl.nonce <= combined.value) then Err(NonceNotExtended)
    else if iterations.value < 1 then Err(BadIterations)
    else
      var salt := c.decode(salt64.value);
      if salt.None? then Err(BadBase64)
      else
        var salted := c.pbkdf2(password, salt.value, iterations.value);
        var withoutProof := Join(FinalFields(cl, combined.value), ',');
        var message := Join(BareFields(cl), ',') + "," + serverFirst + "," + withoutProof;
        var clientKey := c.hmac(salted, "Client Key");
        var proof := Xor(clientKey, c.hmac(c.hash(clientKey), message));
        Ok((withoutProof + ",p=" + c.encode(proof), c.hmac(c.hmac(salted, "Server Key"), message)))
  }

  /** The client's check of the server's last message. */
  predicate AcceptsServer(c: Crypto, expected: Bytes, serverFinal: string) {
    "v=" <= serverFinal && c.decode(Split(serverFinal[2..], ',')[0]) == Some(expected)
  }

  // ---- an honest exchange --------------------------------------------------------------------

  lemma {:induction false} RFindLast(a: string, b: string)
    requires ',' !in b
    ensures RFind(a + ",p=" + b, ",p=") == Some(|a|)
  {
    var s := a + ",p=" + b;
    if b == [] {
      assert s[|s| - 3..] == ",p=";
    } else {
      assert s[|s| - 3] != ',' by {
        if |b| >= 3 {
          assert s[|s| - 3] == b[|b| - 3];
        }
      }
      assert s[|s| - 3..] != ",p=";
      assert s[..|s| - 1] == a + ",p=" + b[..|b| - 1];
      RFindLast(a, b[..|b| - 1]);
    }
  }

  lemma StartHonest(c: Crypto, v: Verifier, cl: Client, serverNonce: string)
    requires ValidClient(cl)
    ensures var combined := cl.nonce + serverNonce;
            Start(c, v, ClientFirst(cl), serverNonce)
            == Ok(Server(v, combined, Join(BareFields(cl), ','), ServerFirst(c, v, combined)))
  {
    var fields := BareFields(cl);
    var bare := Join(fields, ',');
    SplitOnceAt(cl.flag, ',', cl.authzid + "," + bare);
    SplitOnceAt(cl.authzid, ',', bare);
    assert CommaFree(fields);
    SplitJoin(fields, ',');
    assert fields[0][0] == 'n' && fields[1..][0] == "r=" + cl.nonce;
    assert FindField(fields[1..], "r=") == Some(cl.nonce);
  }

  lemma ServerFirstFields(c: Crypto, v: Verifier, combined: string)
    requires Laws(c) && ',' !in combined
    ensures var fields := ["r=" + combined, "s=" + c.encode(v.salt), "i=" + PrintNat(v.iterations, 10, false)];
            Split(ServerFirst(c, v, combined), ',') == fields
            && LastField(fields, "r=") == Some(combined)
            && LastField(fields, "s=") == Some(c.encode(v.salt))
            && LastField(fields, "i=") == Some(PrintNat(v.iterations, 10, false))
  {
    var n := PrintNat(v.iterations, 10, false);
    var fields := ["r=" + combined, "s=" + c.encode(v.salt), "i=" + n];
    Encoded(c, v.salt);
    assert ',' !in n;
    SplitJoin(fields, ',');
    assert fields[..2] == [fields[0], fields[1]] && fields[..2][..1] == [fields[0]];
    assert fields[2][0] == 'i' && fields[1][0] == 's';
    assert LastField([fields[0]], "r=") == Some(combined);
    assert LastField(fields[..2], "r=") == Some(combined);
  }

  lemma XorTwice(a: Bytes, b: Bytes)
    requires |a| == |b|
    ensures Xor(Xor(a, b), b) == a
  {
    forall k | 0 <= k < |a| ensures (a[k] ^ b[k]) ^ b[k] == a[k] {
    }
  }

  /** The server's answer to any well-formed second message: an answer to another challenge is refused,
      and otherwise the proof decides. */
  lemma FinishAnswers(c: Crypto, s: Server, cl: Client, echoed: string, proof: Bytes)
    requires Laws(c) && ValidClient(cl) && ',' !in echoed
    requires |s.verifier.storedKey| == |proof| == 32
    ensures var withoutProof := Join(FinalFields(cl, echoed), ',');
            var message := AuthMessage(s.clientFirstBare, s.serverFirst, withoutProof);
            Verdict(c, s, withoutProof + ",p=" + c.encode(proof)) ==
            if echoed != s.combinedNonce then Err(NonceMismatch)
            else if c.hash(Xor(proof, c.hmac(s.verifier.storedKey, message))) == s.verifier.storedKey
            then Ok("v=" + c.encode(c.hmac(s.verifier.serverKey, message)))
            else Err(ProofMismatch)
  {
    var fields := FinalFields(cl, echoed);
    var withoutProof := Join(fields, ',');
    var e := c.encode(proof);
    Encoded(c, proof);
    RFindLast(withoutProof, e);
    var final := withoutProof + ",p=" + e;
    assert final[..|withoutProof|] == withoutProof && final[|withoutProof| + 3..] == e;
    assert CommaFree(fields);
    SplitJoin(fields, ',');
    assert fields[0][0] == 'c' && fields[1..][0] == "r=" + echoed;
    assert FindField(fields[1..], "r=") == Some(echoed);
  }

  /** The whole exchange: the client's first message, the server's, the client's second, the server's
      answer. */
  lemma HonestExchange(c: Crypto, cl: Client, serverNonce: string, password: string, salt: Bytes, iterations: nat)
    requires Laws(c) && ValidClient(cl) && ',' !in serverNonce && iterations <= MaxU32
    ensures var v := FromPassword(c, password, salt, iterations);
            var started := Start(c, v, ClientFirst(cl), serverNonce);
            && started.Ok?
            && var final := ClientFinal(c, cl, started.value.serverFirst, password);
            && (final.Ok? <==> iterations >= 1)
            && (final.Ok? ==>
                  var verdict := Verdict(c, started.value, final.value.0);
                  && verdict == Ok("v=" + c.encode(final.value.1))
                  && AcceptsServer(c, final.value.1, verdict.value))
  {
    hide RFind, Split, FindField, LastField, Trim, SplitOnce, Join, Start, PrintNat, ParseNat;
    var v := FromPassword(c, password, salt, iterations);
    var combined := cl.nonce + serverNonce;
    StartHonest(c, v, cl, serverNonce);
    var started := Start(c, v, ClientFirst(cl), serverNonce);
    ServerFirstFields(c, v, combined);
    ParsePrint(iterations, 10, false, MaxU32);
    var final := ClientFinal(c, cl, started.value.serverFirst, password);
    if iterations >= 1 {
      var clientKey := c.hmac(c.pbkdf2(password, salt, iterations), "Client Key");
      var withoutProof := Join(FinalFields(cl, combined), ',');
      var message := AuthMessage(Join(BareFields(cl), ','), started.value.serverFirst, withoutProof);
      var signature := c.hmac(v.storedKey, message);
      XorTwice(clientKey, signature);
      FinishAnswers(c, started.value, cl, combined, Xor(clientKey, signature));
      Encoded(c, final.value.1);
      SplitNone(c.encode(final.value.1), ',');
      assert ("v=" + c.encode(final.value.1))[2..] == c.encode(final.value.1);
    }
  }
}

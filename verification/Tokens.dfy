/** Tokens as text: what `solve` prints and what `verify` and the server accept. */
module Tokens {
  import opened Bits
  import opened Wrappers
  import opened Base64Url
  import opened Sha256
  import opened Kernel
  import opened Solver

  const DOT: Byte := '.' as int

  function Token(doc: seq<Byte>, suffix: seq<Byte>): seq<Byte> { Encode(doc) + [DOT] + Encode(suffix) }

  /** `strchr(token, '.')` and `split_once('.')`: the first dot, or the length. */
  method FirstDot(token: seq<Byte>) returns (i: nat)
    ensures i <= |token| && DOT !in token[..i] && (i < |token| ==> token[i] == DOT)
  {
    i := 0;
    while i < |token| && token[i] != DOT
      invariant i <= |token| && DOT !in token[..i]
    {
      i := i + 1;
    }
  }

  lemma NoDotInside(data: seq<Byte>)
    ensures DOT !in Encode(data)
  {
    hide Sextets;
    forall v: Sextet ensures Letter(v) != DOT {}
  }

  lemma NoneBefore(token: seq<Byte>, i: nat)
    requires i <= |token| && DOT !in token[..i]
    ensures forall j :: 0 <= j < i ==> token[j] != DOT
  {
    forall j | 0 <= j < i ensures token[j] != DOT { assert token[..i][j] in token[..i]; }
  }

  /** A token splits at its first dot into the texts of its document and its suffix. */
  lemma TokenSplits(doc: seq<Byte>, suffix: seq<Byte>, token: seq<Byte>, i: nat)
    requires i < |token| && token[i] == DOT && DOT !in token[..i]
    ensures token == Token(doc, suffix) <==> token[..i] == Encode(doc) && token[i + 1..] == Encode(suffix)
  {
    hide Encode;
    NoDotInside(doc);
    assert token == token[..i] + [DOT] + token[i + 1..];
    if token == Token(doc, suffix) {
      var k := |Encode(doc)|;
      assert token[k] == DOT && token[..k] == Encode(doc);
      NoneBefore(token, i);
      NoneBefore(token, k);
    }
  }

  lemma SameText(a: seq<Byte>, b: seq<Byte>)
    requires Encode(a) == Encode(b)
    ensures a == b
  {
    hide Encode, Decode;
    DecodeInvertsEncode(a, Encode(a));
    DecodeInvertsEncode(b, Encode(a));
  }

  /** A token is the text of one document and one suffix. */
  lemma TokenIsUnique(doc: seq<Byte>, suffix: seq<Byte>, doc': seq<Byte>, suffix': seq<Byte>)
    requires Token(doc, suffix) == Token(doc', suffix')
    ensures doc == doc' && suffix == suffix'
  {
    hide Encode;
    var token, i := Token(doc, suffix), |Encode(doc)|;
    NoDotInside(doc);
    assert token[..i] == Encode(doc) && token[i] == DOT;
    TokenSplits(doc, suffix, token, i);
    TokenSplits(doc', suffix', token, i);
    SameText(doc, doc');
    SameText(suffix, suffix');
  }

  /** A document is no longer than its text. */
  lemma DocFits(doc: seq<Byte>, suffix: seq<Byte>)
    ensures |doc| <= |Token(doc, suffix)|
  {
    hide Encode;
    EncodedLength(doc);
  }

  /** The `verify` command, and `pow_token_doc_and_level`: the document and the level of
      a well-formed token, and nothing for any other text. */
  method VerifyToken(token: seq<Byte>) returns (r: Option<(seq<Byte>, nat)>)
    requires |token| < DOC_LIMIT
    ensures forall doc, suffix :: token == Token(doc, suffix) && |suffix| <= 32 ==>
      |doc| < DOC_LIMIT && r == Some((doc, TokenLevel(doc, suffix)))
    ensures r.Some? ==> exists suffix :: token == Token(r.value.0, suffix) && |suffix| <= 32
  {
    hide Encode, Decode, TokenLevel;
    var dot := FirstDot(token);
    forall doc, suffix | token == Token(doc, suffix)
      ensures dot < |token| && |doc| < DOC_LIMIT
      ensures Decode(token[..dot]) == Some(doc) && Decode(token[dot + 1..]) == Some(suffix)
    {
      assert token[|Encode(doc)|] == DOT;
      DocFits(doc, suffix);
      TokenSplits(doc, suffix, token, dot);
      DecodeInvertsEncode(doc, token[..dot]);
      DecodeInvertsEncode(suffix, token[dot + 1..]);
    }
    if dot == |token| { return None; }
    var doc := DecodeText(token[..dot]);
    var suffix := DecodeText(token[dot + 1..]);
    if doc.None? || suffix.None? { return None; }
    DecodeInvertsEncode(doc.value, token[..dot]);
    DecodeInvertsEncode(suffix.value, token[dot + 1..]);
    TokenSplits(doc.value, suffix.value, token, dot);
    DocFits(doc.value, suffix.value);
    if |suffix.value| > 32 { return None; }
    var level := CheckToken(doc.value, suffix.value);
    return Some((doc.value, level));
  }

  /** The suffix loop of `solve`. */
  method SuffixBytes(counter: nat) returns (suffix: seq<Byte>)
    ensures suffix == BigEndian64(counter)
  {
    hide Octet;
    suffix := [];
    for i := 0 to 8
      invariant suffix == BigEndian64(counter)[..i]
    {
      suffix := suffix + [Octet(counter, 7 - i)];
    }
  }

  datatype Solution = Printed(token: seq<Byte>) | InternalError | StillSearching

  /** The `solve` command, up to `rounds` turns of its loop.  What it prints is a token
      of the document with the level, and its internal error does not happen. */
  method Solve(doc: seq<Byte>, level: nat, start: nat, rounds: nat) returns (r: Solution)
    requires |doc| < DOC_LIMIT && 1 <= level <= 64 && start < WRAP
    ensures r != InternalError
    ensures r.Printed? ==> exists suffix :: r.token == Token(doc, suffix) && |suffix| == 8 && TokenLevel(doc, suffix) >= level
    ensures r == StillSearching ==> Misses(doc, level, start, rounds * BATCH)
  {
    hide Encode, TokenLevel, BigEndian64;
    var solved, counter, attempts, misses, w := Search(doc, level, start, rounds);
    if !solved { return StillSearching; }
    var suffix := SuffixBytes(counter);
    var achieved := CheckToken(doc, suffix);
    if achieved < level { return InternalError; }
    var doc64, n := EncodeBytes(doc);
    var suffix64, m := EncodeBytes(suffix);
    r := Printed(doc64[..n] + [DOT] + suffix64[..m]);
    assert r.token == Token(doc, suffix);
  }
}

/** Decoding of the recipients of one enqueue. */
module Recipients {
  import opened StringOrder
  import opened Wrappers

  const MAX_INBOX_RECIPIENTS: nat := 16

  /** The elements of `s`, each at its first occurrence. */
  function FirstOccurrences(s: seq<string>): seq<string> {
    if s == [] then []
    else
      var before, last := s[..|s| - 1], s[|s| - 1];
      if last in before then FirstOccurrences(before) else FirstOccurrences(before) + [last]
  }

  lemma {:induction false} FirstOccurrencesAreDistinct(s: seq<string>)
    ensures Distinct(FirstOccurrences(s)) && |FirstOccurrences(s)| <= |s|
    ensures forall y :: y in FirstOccurrences(s) <==> y in s
  {
    if s != [] {
      var before, last := s[..|s| - 1], s[|s| - 1];
      FirstOccurrencesAreDistinct(before);
      assert s == before + [last];
    }
  }

  /** They keep the order of the first occurrences. */
  lemma {:induction false} FirstOccurrencesInOrder(s: seq<string>, i: nat, j: nat) returns (k: nat)
    requires i < j < |FirstOccurrences(s)|
    ensures k < |s| && s[k] == FirstOccurrences(s)[i] && FirstOccurrences(s)[j] !in s[..k]
  {
    var before, last := s[..|s| - 1], s[|s| - 1];
    var firsts := FirstOccurrences(before);
    if j < |firsts| {
      k := FirstOccurrencesInOrder(before, i, j);
      assert s[..k] == before[..k];
    } else {
      FirstOccurrencesAreDistinct(before);
      assert firsts[i] in before;
      k :| 0 <= k < |before| && before[k] == firsts[i];
      assert forall y :: y in s[..k] ==> y in before;
    }
  }

  /** `a` occurs at a place that `b` does not precede. */
  ghost predicate Sooner(parts: seq<Option<string>>, a: string, b: string) {
    exists k :: 0 <= k < |parts| && parts[k] == Some(a) && Some(b) !in parts[..k]
  }

  /** `decode_public_keys`.  A part is the inbox key that it decodes to, or
      `None` when it is not a public key. */
  method DecodePublicKeys(parts: seq<Option<string>>) returns (r: Result<seq<string>>)
    ensures r.Ok? <==> 1 <= |parts| <= 16 && None !in parts
    ensures r.Ok? ==> 1 <= |r.value| <= MAX_INBOX_RECIPIENTS && Distinct(r.value)
    ensures r.Ok? ==> forall key :: key in r.value <==> Some(key) in parts
    ensures r.Ok? ==> forall i, j :: 0 <= i < j < |r.value| ==> Sooner(parts, r.value[i], r.value[j])
    ensures r.Ok? ==> r.value == FirstOccurrences(seq(|parts|, i requires 0 <= i < |parts| => if parts[i].Some? then parts[i].value else ""))
  {
    if |parts| == 0 || |parts| > MAX_INBOX_RECIPIENTS {
      return Err("invalid recipient count");
    }
    ghost var keys := seq(|parts|, i requires 0 <= i < |parts| => if parts[i].Some? then parts[i].value else "");
    var seen: set<string> := {};
    var out: seq<string> := [];
    for i := 0 to |parts|
      invariant None !in parts[..i]
      invariant out == FirstOccurrences(keys[..i])
      invariant forall key :: key in seen <==> key in keys[..i]
    {
      assert keys[..i + 1][..i] == keys[..i];
      assert parts[..i + 1] == parts[..i] + [parts[i]] && keys[..i + 1] == keys[..i] + [keys[i]];
      match parts[i] {
        case None =>
          assert parts[i] in parts;
          return Err("public key is invalid");
        case Some(key) =>
          if key !in seen {
            seen := seen + {key};
            out := out + [key];
          }
      }
    }
    assert keys[..|parts|] == keys && parts[..|parts|] == parts;
    FirstOccurrencesAreDistinct(keys);
    assert keys[0] in keys;
    forall key ensures key in out <==> Some(key) in parts {
      if key in out {
        var i :| 0 <= i < |keys| && keys[i] == key;
        assert parts[i] in parts;
      }
      if Some(key) in parts {
        var i :| 0 <= i < |parts| && parts[i] == Some(key);
        assert keys[i] == key;
      }
    }
    forall i, j | 0 <= i < j < |out| ensures Sooner(parts, out[i], out[j]) {
      var k := FirstOccurrencesInOrder(keys, i, j);
      assert parts[k] in parts && parts[k] == Some(out[i]);
      forall m | 0 <= m < k ensures parts[m] != Some(out[j]) { assert keys[m] in keys[..k]; }
    }
    return Ok(out);
  }
}

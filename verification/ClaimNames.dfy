/** What the identifier of a claim stands for. Extraction names a claim by a digest of its investigation
    and of the place it quotes, and every expansion puts a prefix in front; nothing else names a claim. */
module ClaimNames {
  import opened Reports
  import opened Expansion

  /** The digest of an investigation and a place in its observations, and the words at that place. */
  datatype Naming = Naming(name: (string, string) -> string, quote: (string, string) -> string)

  /** Digests never collide, and being written in hexadecimal digits none begins like a prefix. */
  ghost predicate NamesClaims(n: Naming) {
    && (forall a, b, c, d :: n.name(a, b) == n.name(c, d) ==> a == c && b == d)
    && (forall a, b :: !("fv" <= n.name(a, b)))
  }

  ghost predicate Behind(id: string, version: nat, rest: string) {
    id == Prefix(version) + rest && |rest| < |id|
  }

  /** A claim of this identifier was extracted with these words, here or, behind one prefix for every
      expansion on the way, in a full video. */
  ghost predicate StandsFor(n: Naming, id: string, words: string)
    decreases |id|
  {
    || (exists investigation, place :: id == n.name(investigation, place) && words == n.quote(investigation, place))
    || (exists version, rest :: Behind(id, version, rest) && StandsFor(n, rest, words))
  }

  /** An identifier stands for one wording only. */
  lemma {:induction false} OneWording(n: Naming, id: string, a: string, b: string)
    requires NamesClaims(n) && StandsFor(n, id, a) && StandsFor(n, id, b)
    ensures a == b
    decreases |id|
  {
    if v, x :| Behind(id, v, x) && StandsFor(n, x, a) {
      StartsLikeAPrefix(id, v, x);
      var w, y :| Behind(id, w, y) && StandsFor(n, y, b);
      OneVersion(v, w, id);
      assert id[|Prefix(v)|..] == x && id[|Prefix(w)|..] == y;
      OneWording(n, x, a, b);
    } else if w, y :| Behind(id, w, y) && StandsFor(n, y, b) {
      StartsLikeAPrefix(id, w, y);
    }
  }

  lemma StartsLikeAPrefix(id: string, version: nat, rest: string)
    requires Behind(id, version, rest)
    ensures "fv" <= id
  {
    hide Digits;
    assert Prefix(version) <= id;
    assert "fv" <= Prefix(version);
  }

  /** Every claim carries the words its identifier stands for. */
  ghost predicate AllQuoted(n: Naming, claims: seq<Claim>) {
    forall c :: c in claims ==> StandsFor(n, c.id, c.originalText)
  }

  /** A report as extraction publishes it. */
  ghost predicate Extracted(n: Naming, r: Report) {
    forall c :: c in r.claims ==>
      exists place :: c.id == n.name(r.investigation, place) && c.originalText == n.quote(r.investigation, place)
  }

  lemma ExtractedIsQuoted(n: Naming, r: Report)
    requires Extracted(n, r)
    ensures AllQuoted(n, r.claims)
  {
  }

  /** A full video's claims whose identifiers keep all of their own text behind the prefix. */
  ghost predicate QuotedSource(n: Naming, full: Report) {
    AllQuoted(n, full.claims) && forall c :: c in full.claims ==> Fits(c.id, Prefix(full.version))
  }

  /** An expansion adds claims under names that stand for their words. */
  lemma ExpansionStaysQuoted(n: Naming, clip: Report, full: Report, identity: NextVersion)
    requires AllQuoted(n, clip.claims) && QuotedSource(n, full)
    ensures AllQuoted(n, Expanded(clip, full, identity).claims)
  {
    hide StandsFor, Fits, Prefixed, Prefix;
    var claims := Expanded(clip, full, identity).claims;
    forall c | c in claims ensures StandsFor(n, c.id, c.originalText) {
      var k :| 0 <= k < |claims| && claims[k] == c;
      if k < |clip.claims| {
        assert clip.claims[k] in clip.claims;
      } else {
        var f := full.claims[k - |clip.claims|];
        assert f in full.claims;
        PrefixStandsFor(n, f.id, f.originalText, full.version);
      }
    }
  }

  lemma PrefixStandsFor(n: Naming, id: string, words: string, version: nat)
    requires StandsFor(n, id, words) && Fits(id, Prefix(version))
    ensures StandsFor(n, Prefixed(id, Prefix(version)), words)
  {
    assert Behind(Prefixed(id, Prefix(version)), version, id);
  }
}

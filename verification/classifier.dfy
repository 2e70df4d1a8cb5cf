/**
 * The URL classifier of the relay bot: a case-insensitive search for one of
 * four host names anywhere in the message text (VIDEO_DOMAIN_RE and
 * is_supported_url in bot.py).
 *
 * The pattern is a fixed alternation of literals, so the search is modelled
 * as the regex engine runs it: try every start position from left to right
 * and, at each one, every alternative in the pattern's order. The lemmas
 * connect that search to the declarative reading "the case-folded text
 * contains one of the host names".
 */
module UrlClassifier {
  import opened Wrappers

  /** The alternatives of VIDEO_DOMAIN_RE, in the order the pattern lists them.
      Every dot is escaped in the pattern, so it stands for a literal dot. */
  const Hosts: seq<string> := ["facebook.com", "fb.watch", "instagram.com", "instagr.am"]

  function AsciiLower(c: char): char {
    if 'A' <= c <= 'Z' then (c as int + 32) as char else c
  }

  function AsciiUpper(c: char): char {
    if 'a' <= c <= 'z' then (c as int - 32) as char else c
  }

  /**
   * The case folding that re.IGNORECASE applies to a text character before
   * comparing it with a lower-case pattern character. Besides the ASCII
   * letters, four characters fold onto letters that occur in the host names:
   * KELVIN SIGN onto 'k', LATIN CAPITAL LETTER I WITH DOT ABOVE and LATIN
   * SMALL LETTER DOTLESS I onto 'i', LATIN SMALL LETTER LONG S onto 's'.
   * Every other character is left alone; none of them can equal a character
   * of a host name after Python's folding either, so comparing Fold(c) with a
   * host character is exactly the regex engine's comparison.
   */
  function Fold(c: char): (r: char)
    ensures r == c || 'a' <= r <= 'z'
    ensures 'A' <= c <= 'Z' ==> r as int == c as int + 32
    ensures 'a' <= c <= 'z' || c == '.' ==> r == c
  {
    if c == '\U{212A}' then 'k'
    else if c == '\U{0130}' || c == '\U{0131}' then 'i'
    else if c == '\U{017F}' then 's'
    else AsciiLower(c)
  }

  function Folded(u: string): (r: string)
    ensures |r| == |u|
    ensures forall k :: 0 <= k < |u| ==> r[k] == Fold(u[k])
  {
    seq(|u|, k requires 0 <= k < |u| => Fold(u[k]))
  }

  /** Host name h matches the text u at position i, ignoring case. */
  predicate MatchesAt(u: string, i: nat, h: string) {
    i + |h| <= |u| && forall k :: 0 <= k < |h| ==> Fold(u[i + k]) == h[k]
  }

  /** No alternative of the pattern matches at position i. */
  predicate NoHostAt(u: string, i: nat) {
    forall b :: 0 <= b < |Hosts| ==> !MatchesAt(u, i, Hosts[b])
  }

  /** The first alternative, from index a on, that matches at position i. */
  function AlternativeAt(u: string, i: nat, a: nat): (r: Option<nat>)
    requires a <= |Hosts|
    decreases |Hosts| - a
    ensures r.Some? ==> a <= r.value < |Hosts| && MatchesAt(u, i, Hosts[r.value])
    ensures forall b :: a <= b < (if r.Some? then r.value else |Hosts|) ==> !MatchesAt(u, i, Hosts[b])
  {
    if a == |Hosts| then None
    else if MatchesAt(u, i, Hosts[a]) then Some(a)
    else AlternativeAt(u, i, a + 1)
  }

  /** A match of the pattern: where it starts and which alternative matched. */
  datatype Match = Match(start: nat, alternative: nat)

  /** re.search from position i: the leftmost match, and at that position the
      first alternative in the pattern's order. */
  function SearchFrom(u: string, i: nat): (r: Option<Match>)
    requires i <= |u|
    decreases |u| - i
    ensures r.Some? ==> i <= r.value.start <= |u| && r.value.alternative < |Hosts|
    ensures r.Some? ==> MatchesAt(u, r.value.start, Hosts[r.value.alternative])
    ensures r.Some? ==> forall b :: 0 <= b < r.value.alternative ==> !MatchesAt(u, r.value.start, Hosts[b])
    ensures forall j :: i <= j <= |u| && (r.None? || j < r.value.start) ==> NoHostAt(u, j)
  {
    match AlternativeAt(u, i, 0)
    case Some(a) => Some(Match(i, a))
    case None => if i == |u| then None else SearchFrom(u, i + 1)
  }

  /** is_supported_url: whether the search finds any match at all, that is,
      whether some alternative matches at some position. */
  predicate IsSupportedUrl(u: string): (r: bool)
    ensures r <==> exists i: nat, b: nat :: b < |Hosts| && MatchesAt(u, i, Hosts[b])
  {
    var m := SearchFrom(u, 0);
    assert forall i: nat, b: nat :: b < |Hosts| && MatchesAt(u, i, Hosts[b]) ==> m.Some? by {
      forall i: nat, b: nat | b < |Hosts| && MatchesAt(u, i, Hosts[b]) ensures m.Some? {
        assert !NoHostAt(u, i);
      }
    }
    m.Some?
  }

  // ---------------------------------------------------------------------
  // The declarative reading: the case-folded text contains a host name.

  predicate OccursAt(p: string, s: string, i: nat) {
    i + |p| <= |s| && s[i..i + |p|] == p
  }

  ghost predicate Contains(s: string, p: string) {
    exists i: nat :: OccursAt(p, s, i)
  }

  ghost predicate MentionsHost(u: string) {
    exists h :: h in Hosts && Contains(Folded(u), h)
  }

  lemma MatchesAtIffOccurs(u: string, i: nat, h: string)
    ensures MatchesAt(u, i, h) <==> OccursAt(h, Folded(u), i)
  {
    if i + |h| <= |u| {
      var f := Folded(u);
      if MatchesAt(u, i, h) {
        assert f[i..i + |h|] == h by {
          forall k | 0 <= k < |h| ensures f[i..i + |h|][k] == h[k] {
            assert f[i + k] == Fold(u[i + k]);
          }
        }
      }
      if OccursAt(h, f, i) {
        forall k | 0 <= k < |h| ensures Fold(u[i + k]) == h[k] {
          assert f[i..i + |h|][k] == f[i + k];
        }
      }
    }
  }

  /** A match anywhere in the text is enough for the search to succeed. */
  lemma {:induction false} MatchMeansSupported(u: string, i: nat, b: nat)
    requires b < |Hosts| && MatchesAt(u, i, Hosts[b])
    ensures IsSupportedUrl(u)
  {
    assert !NoHostAt(u, i);
  }

  /** The classifier accepts exactly the texts whose case-folded form contains
      one of the four host names as a contiguous substring. */
  lemma {:induction false} IsSupportedUrlSpec(u: string)
    ensures IsSupportedUrl(u) <==> MentionsHost(u)
  {
    var r := SearchFrom(u, 0);
    if r.Some? {
      var h := Hosts[r.value.alternative];
      MatchesAtIffOccurs(u, r.value.start, h);
      assert OccursAt(h, Folded(u), r.value.start);
      assert Contains(Folded(u), h);
    }
    if MentionsHost(u) {
      var h :| h in Hosts && Contains(Folded(u), h);
      var i: nat :| OccursAt(h, Folded(u), i);
      MatchesAtIffOccurs(u, i, h);
      var b :| 0 <= b < |Hosts| && Hosts[b] == h;
      MatchMeansSupported(u, i, b);
    }
  }

  /** Texts whose case-folded forms agree are classified alike. */
  lemma {:induction false} SameFoldSameVerdict(u: string, v: string)
    requires Folded(u) == Folded(v)
    ensures IsSupportedUrl(u) == IsSupportedUrl(v)
  {
    IsSupportedUrlSpec(u);
    IsSupportedUrlSpec(v);
  }

  /** v is u with the letter case of any of its characters changed. */
  predicate CaseVariant(u: string, v: string) {
    |u| == |v| &&
    forall k :: 0 <= k < |u| ==> v[k] == u[k] || v[k] == AsciiUpper(u[k]) || v[k] == AsciiLower(u[k])
  }

  /** Classification ignores letter case. */
  lemma {:induction false} CaseInsensitive(u: string, v: string)
    requires CaseVariant(u, v)
    ensures IsSupportedUrl(u) == IsSupportedUrl(v)
  {
    assert Folded(u) == Folded(v) by {
      forall k | 0 <= k < |u| ensures Folded(u)[k] == Folded(v)[k] {
        assert Fold(u[k]) == Fold(v[k]);
      }
    }
    SameFoldSameVerdict(u, v);
  }

  /** re.search looks everywhere in the text: whatever surrounds a supported
      text, the result is still supported. */
  lemma {:induction false} SupportedUnderExtension(u: string, p: string, s: string)
    requires IsSupportedUrl(u)
    ensures IsSupportedUrl(p + u + s)
  {
    var i: nat, b: nat :| b < |Hosts| && MatchesAt(u, i, Hosts[b]);
    var w := p + u + s;
    var h := Hosts[b];
    assert MatchesAt(w, |p| + i, h) by {
      forall k | 0 <= k < |h| ensures Fold(w[|p| + i + k]) == h[k] {
        assert w[|p| + i + k] == u[i + k];
      }
    }
  }

  /** Every host name is spelt with lower-case ASCII letters and dots. */
  lemma HostAlphabet(b: nat, k: nat)
    requires b < |Hosts| && k < |Hosts[b]|
    ensures 'a' <= Hosts[b][k] <= 'z' || Hosts[b][k] == '.'
  {
  }
}

/**
 The test that decides which pool tag keys belong to the runner reclaimer: the
 unanchored pattern `[a-z0-9_]{15}`, applied with a search rather than a full
 match, so a key qualifies as soon as it CONTAINS fifteen consecutive
 characters from that class.
 */
module RunnerNamePattern {

  /** The number of consecutive class characters the pattern needs. */
  const RunLength: nat := 15

  predicate IsRunnerNameChar(c: char)
  {
    'a' <= c <= 'z' || '0' <= c <= '9' || c == '_'
  }

  /** s[i..i + RunLength] lies inside s and is made of class characters only. */
  ghost predicate RunAt(s: string, i: int)
  {
    0 <= i && i + RunLength <= |s| && forall j :: i <= j < i + RunLength ==> IsRunnerNameChar(s[j])
  }

  /** What the unanchored search finds: a run somewhere in s. */
  ghost predicate ContainsRun(s: string)
  {
    exists i :: RunAt(s, i)
  }

  /** The first m characters of s exist and are class characters. */
  ghost predicate PrefixRun(s: string, m: int)
  {
    m <= |s| && forall j :: 0 <= j < m ==> IsRunnerNameChar(s[j])
  }

  /** One left-to-right scan; `run` counts the class characters just before s. */
  function ScanFrom(s: string, run: nat): bool
    decreases |s|
  {
    if run >= RunLength then true
    else if s == [] then false
    else ScanFrom(s[1..], if IsRunnerNameChar(s[0]) then run + 1 else 0)
  }

  /** A scan that has already seen `run` class characters succeeds exactly when
      those can be completed by a prefix of s or when s holds a run by itself. */
  lemma {:induction false} ScanFromCorrect(s: string, run: nat)
    requires run < RunLength
    ensures ScanFrom(s, run) <==> PrefixRun(s, RunLength - run) || ContainsRun(s)
  {
    if s != [] {
      var t := s[1..];
      // A run of t is a run of s, one position to the right.
      assert ContainsRun(t) ==> ContainsRun(s) by {
        if ContainsRun(t) {
          var i :| RunAt(t, i);
          assert RunAt(s, i + 1);
        }
      }
      // A run of s that does not start at 0 is a run of t.
      assert ContainsRun(s) ==> RunAt(s, 0) || ContainsRun(t) by {
        if ContainsRun(s) {
          var i :| RunAt(s, i);
          if i > 0 {
            assert RunAt(t, i - 1);
          }
        }
      }
      if IsRunnerNameChar(s[0]) {
        assert RunAt(s, 0) ==> PrefixRun(s, RunLength - run);
        if run + 1 < RunLength {
          ScanFromCorrect(t, run + 1);
          assert PrefixRun(t, RunLength - (run + 1)) <==> PrefixRun(s, RunLength - run) by {
            if PrefixRun(t, RunLength - (run + 1)) {
              forall j | 0 <= j < RunLength - run
                ensures IsRunnerNameChar(s[j])
              {
                if j > 0 { assert s[j] == t[j - 1]; }
              }
            }
          }
        } else {
          assert PrefixRun(s, 1);
        }
      } else {
        ScanFromCorrect(t, 0);
        assert !RunAt(s, 0);
        assert !PrefixRun(s, RunLength - run);
        assert PrefixRun(t, RunLength) ==> RunAt(t, 0);
      }
    }
  }

  /** The key-ownership test: true iff the key contains a run of fifteen
      characters from `[a-z0-9_]`. */
  predicate MatchesRunnerName(key: string)
    ensures MatchesRunnerName(key) <==> ContainsRun(key)
  {
    ScanFromCorrect(key, 0);
    assert PrefixRun(key, RunLength) ==> RunAt(key, 0);
    ScanFrom(key, 0)
  }

  /** Keys shorter than the run never match, so they always pass through the
      pool-tag rebuild. */
  lemma ShortKeyNeverMatches(key: string)
    requires |key| < RunLength
    ensures !MatchesRunnerName(key)
  {
  }

  /** A typical generated runner name is owned, and so is a key that embeds one. */
  lemma GeneratedNameMatches()
    ensures MatchesRunnerName("abc123def456789")
  {
    assert RunAt("abc123def456789", 0);
  }

  lemma EmbeddedNameMatches()
    ensures MatchesRunnerName("pool-abc123def456789-x")
  {
    assert RunAt("pool-abc123def456789-x", 5);
  }
}

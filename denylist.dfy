/** The client's profanity filter: a name is refused when, lower-cased,
    it contains any entry of the denylist fetched from /api/bad-words. */
module Denylist {
  import opened JsStrings

  /** `badWords.some(w => lower.includes(w))` for `lower` already
      lower-cased. */
  function AnyIncluded(lower: string, badWords: seq<string>): bool {
    badWords != [] && (Includes(lower, badWords[0]) || AnyIncluded(lower, badWords[1..]))
  }

  /** `some(w => lower.includes(w))` holds exactly when some entry occurs
      in the text. */
  lemma {:induction false} AnyIncludedIff(lower: string, badWords: seq<string>)
    ensures AnyIncluded(lower, badWords) <==>
      exists j :: 0 <= j < |badWords| && IsInfix(badWords[j], lower)
  {
    if badWords != [] {
      var rest := badWords[1..];
      AnyIncludedIff(lower, rest);
      IncludesIffInfix(lower, badWords[0]);
      if exists j :: 0 <= j < |rest| && IsInfix(rest[j], lower) {
        var j :| 0 <= j < |rest| && IsInfix(rest[j], lower);
        assert badWords[j + 1] == rest[j];
      }
      if exists j :: 0 <= j < |badWords| && IsInfix(badWords[j], lower) {
        var j :| 0 <= j < |badWords| && IsInfix(badWords[j], lower);
        if j > 0 {
          assert rest[j - 1] == badWords[j];
        }
      }
    }
  }

  /** containsBadWord: the name, lower-cased, contains some denylist
      entry. The entries themselves are not lower-cased, so the match
      ignores the case of the name only. */
  function ContainsBadWord(name: string, badWords: seq<string>): bool {
    AnyIncluded(ToLower(name), badWords)
  }

  /** containsBadWord holds exactly when some denylist entry occurs in the
      lower-cased name. */
  lemma ContainsBadWordIff(name: string, badWords: seq<string>)
    ensures ContainsBadWord(name, badWords) <==>
      exists j :: 0 <= j < |badWords| && IsInfix(badWords[j], ToLower(name))
  {
    AnyIncludedIff(ToLower(name), badWords);
  }

  /** A name and its lower-cased form get the same verdict. */
  lemma CaseOfNameIgnored(name: string, badWords: seq<string>)
    ensures ContainsBadWord(ToLower(name), badWords) == ContainsBadWord(name, badWords)
  {
    ToLowerIdempotent(name);
  }

  /** The empty string occurs in every name, so an empty denylist entry
      makes every name a bad word. */
  lemma EmptyEntryMatchesAll(name: string, badWords: seq<string>)
    requires "" in badWords
    ensures ContainsBadWord(name, badWords)
  {
    var j :| 0 <= j < |badWords| && badWords[j] == "";
    assert OccursAt("", ToLower(name), 0);
    ContainsBadWordIff(name, badWords);
  }
}

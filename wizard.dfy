/** The value computations inside the client's step handlers: clamping
    the player count, filling in default nicknames, validating them,
    the all-ready gate, and removing the eliminated player. The handlers
    themselves, which update the page's globals, are in Client. */
module Wizard {
  import opened JsStrings
  import opened Denylist

  /** `Math.max(2, Math.min(8, v))` for an integer input. */
  function ClampPlayers(v: int): (n: int)
    ensures 2 <= n <= 8
    ensures 2 <= v <= 8 ==> n == v
    ensures v < 2 ==> n == 2
    ensures v > 8 ==> n == 8
  {
    if v < 2 then 2 else if v > 8 then 8 else v
  }

  /** `Player ${i + 1}`: the name used for a blank nickname field. It is
      "Player " followed by the decimal digits of i + 1, without a leading
      zero. */
  function DefaultName(i: nat): (r: string)
    ensures |r| > 7 && r[..7] == "Player "
    ensures forall k :: 7 <= k < |r| ==> IsDigit(r[k])
    ensures DigitsValue(r[7..]) == i + 1
    ensures r[7] != '0'
  {
    var digits := NatToString(i + 1);
    assert ("Player " + digits)[7..] == digits;
    "Player " + digits
  }

  /** A default name is non-empty and has no surrounding whitespace. */
  lemma DefaultNameIsTrimmed(i: nat)
    ensures Trim(DefaultName(i)) == DefaultName(i)
  {
    var d := DefaultName(i);
    assert d[0] == 'P';
    assert IsDigit(d[|d| - 1]);
    UnpaddedIsTrimmed(d);
  }

  /** The name field `i` contributes: its trimmed text, or its default
      name when that is empty. Either way the name is non-empty and has no
      surrounding whitespace. */
  function FillName(field: string, i: nat): (r: string)
    ensures r != "" && Trim(r) == r
    ensures !AllSpace(field) ==> r == Trim(field)
    ensures AllSpace(field) ==> r == DefaultName(i)
  {
    var v := Trim(field);
    TrimEmptyIffBlank(field);
    if v == "" then
      DefaultNameIsTrimmed(i);
      DefaultName(i)
    else
      TrimIdempotent(field);
      v
  }

  /** The nickname list built on submit: each field trimmed, and an empty
      one replaced by its default name. */
  function FillNicknames(fields: seq<string>): (r: seq<string>)
    ensures |r| == |fields|
  {
    seq(|fields|, i requires 0 <= i < |fields| => FillName(fields[i], i))
  }

  /** Every filled-in nickname is non-empty and has no surrounding
      whitespace; a field with text keeps its trimmed text and a blank
      field gets its default name. */
  lemma FilledNamesAreTrimmed(fields: seq<string>)
    ensures forall i :: 0 <= i < |fields| ==>
      var r := FillNicknames(fields)[i];
      && r != "" && Trim(r) == r
      && (!AllSpace(fields[i]) ==> r == Trim(fields[i]))
      && (AllSpace(fields[i]) ==> r == DefaultName(i))
  {
  }

  /** A form whose fields are all left blank gives distinct names, so it
      never trips the duplicate check. */
  lemma BlankFormIsDistinct(fields: seq<string>)
    requires forall i :: 0 <= i < |fields| ==> AllSpace(fields[i])
    ensures Distinct(FillNicknames(fields))
  {
    var r := FillNicknames(fields);
    forall i, j | 0 <= i < j < |r| ensures r[i] != r[j] {
      assert r[i] == DefaultName(i) && r[j] == DefaultName(j);
    }
  }

  /** A roster the nickname step lets through: no name twice and no
      denylisted name. */
  ghost predicate CleanRoster(names: seq<string>, badWords: seq<string>) {
    Distinct(names) && forall i :: 0 <= i < |names| ==> !ContainsBadWord(names[i], badWords)
  }

  /** The outcome of the nickname validation. */
  datatype NicknameCheck = NamesAccepted | HasBadWord | HasDuplicate

  /** The nickname validation: a denylisted name is reported first
      (`nicknames.some(containsBadWord)`), a repeated name second
      (`new Set(nicknames).size < nicknames.length`). */
  function CheckNicknames(names: seq<string>, badWords: seq<string>): (c: NicknameCheck)
    ensures c == HasBadWord <==> exists i :: 0 <= i < |names| && ContainsBadWord(names[i], badWords)
    ensures c == HasDuplicate <==>
      (forall i :: 0 <= i < |names| ==> !ContainsBadWord(names[i], badWords)) && !Distinct(names)
    ensures c == NamesAccepted <==> CleanRoster(names, badWords)
  {
    DistinctIffSetSize(names);
    if exists i :: 0 <= i < |names| && ContainsBadWord(names[i], badWords) then HasBadWord
    else if |ToSet(names)| < |names| then HasDuplicate
    else
      NamesAccepted
  }

  /** `errorMsg`: the text shown under the form, "" when the names are
      accepted. */
  function ErrorMessage(c: NicknameCheck): (msg: string)
    ensures msg == "" <==> c == NamesAccepted
  {
    match c
    case NamesAccepted => ""
    case HasBadWord => "One or more nicknames contain inappropriate language."
    case HasDuplicate => "Duplicate nicknames are not allowed."
  }

  /** `roundStatus.every(Boolean)`. */
  predicate AllReady(status: seq<bool>): (r: bool)
    ensures r <==> false !in status
  {
    forall i :: 0 <= i < |status| ==> status[i]
  }

  /** `Array(n).fill(false)`. */
  function NoneReady(n: nat): (r: seq<bool>)
    ensures |r| == n && forall i :: 0 <= i < n ==> !r[i]
  {
    seq(n, _ => false)
  }

  /** `remaining.splice(k, 1)`: the entry at `k` is removed and the others
      keep their order. */
  function RemoveAt(s: seq<string>, k: nat): (r: seq<string>)
    requires k < |s|
    ensures |r| == |s| - 1
    ensures forall j :: 0 <= j < k ==> r[j] == s[j]
    ensures forall j :: k <= j < |r| ==> r[j] == s[j + 1]
  {
    s[..k] + s[k + 1..]
  }

  /** In a list of distinct names, the removed name is gone, every other
      name is still there, and the rest stays distinct. */
  lemma RemoveAtRemovesExactlyOne(s: seq<string>, k: nat)
    requires k < |s| && Distinct(s)
    ensures Distinct(RemoveAt(s, k))
    ensures forall x :: x in RemoveAt(s, k) <==> x in s && x != s[k]
  {
    var r := RemoveAt(s, k);
    forall i, j | 0 <= i < j < |r| ensures r[i] != r[j] {
      var i' := if i < k then i else i + 1;
      var j' := if j < k then j else j + 1;
      assert r[i] == s[i'] && r[j] == s[j'];
    }
    forall x ensures x in r <==> x in s && x != s[k] {
      if x in r {
        var j :| 0 <= j < |r| && r[j] == x;
        var j' := if j < k then j else j + 1;
        assert s[j'] == x;
      }
      if x in s && x != s[k] {
        var j :| 0 <= j < |s| && s[j] == x;
        if j < k {
          assert r[j] == x;
        } else {
          assert r[j - 1] == x;
        }
      }
    }
  }

  /** The winner screen names `remainingPlayers[0]`. */
  function ShownWinner(remaining: seq<string>): (w: string)
    requires |remaining| > 0
    ensures w in remaining
  {
    remaining[0]
  }
}

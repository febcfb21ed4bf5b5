/** The text columns of info_df: the rank labels ("RB 2", "RB 2.5"), the
    position_draft label ("RB 3") and the board label ("12. Name, RB"). */
module Labels {
  import opened Decimal
  import opened Players

  /** The text of a doubled rank: "n" for a whole rank n, "n.5" for the half rank n + 1/2. */
  function RankText(r2: nat): (s: string)
    ensures r2 % 2 == 1 <==> (|s| >= 2 && s[|s| - 2..] == ".5")
  {
    var whole := NatText(r2 / 2);
    if r2 % 2 == 1 then whole + ".5"
    else
      assert |whole| >= 2 ==> IsDigit(whole[|whole| - 2]) && whole[|whole| - 2..][0] == whole[|whole| - 2];
      whole
  }

  /** The doubled value of a rank text: "n.5" reads as 2n + 1, "n" as 2n. */
  function ParseRankText(s: string): nat {
    if |s| >= 2 && s[|s| - 2..] == ".5" && AllDigits(s[..|s| - 2]) then 2 * ParseNat(s[..|s| - 2]) + 1
    else if AllDigits(s) then 2 * ParseNat(s)
    else 0
  }

  /** A rank text reads back as the rank it was written from. */
  lemma RankTextRoundTrip(r2: nat)
    ensures ParseRankText(RankText(r2)) == r2
  {
    var whole := NatText(r2 / 2);
    ParseNatText(r2 / 2);
    if r2 % 2 == 1 {
      assert (whole + ".5")[..|whole|] == whole;
    }
  }

  /** avg_pts_rank / total_pts_rank as displayed: the position, a space, the rank text. */
  function RankLabel(p: Position, r2: nat): string {
    PositionName(p) + " " + RankText(r2)
  }

  /** A rank label starts with its position and a space, and the rest reads back as its rank,
      so two ranks of one position never share a label. */
  lemma RankLabelDecodes(p: Position, r2: nat)
    ensures RankLabel(p, r2)[..|PositionName(p)| + 1] == PositionName(p) + " "
    ensures ParseRankText(RankLabel(p, r2)[|PositionName(p)| + 1..]) == r2
  {
    assert RankLabel(p, r2)[|PositionName(p)| + 1..] == RankText(r2);
    RankTextRoundTrip(r2);
  }

  /** position_draft as displayed: the position, a space, the number. */
  function PositionDraftLabel(p: Position, k: int): string {
    PositionName(p) + " " + IntText(k)
  }

  /** A position_draft label starts with its position and a space, and the rest reads back
      as its number. */
  lemma PositionDraftLabelDecodes(p: Position, k: int)
    ensures PositionDraftLabel(p, k)[..|PositionName(p)| + 1] == PositionName(p) + " "
    ensures ParseInt(PositionDraftLabel(p, k)[|PositionName(p)| + 1..]) == k
  {
    assert PositionDraftLabel(p, k)[|PositionName(p)| + 1..] == IntText(k);
    IntTextRoundTrip(k);
  }

  /** draft_board: "<pick>. <name>, <POS>", and "<pick>. <name>" for a D/ST. */
  function BoardLabel(pick: int, name: string, p: Position): string {
    IntText(pick) + ". " + name + (if p != DST then ", " + PositionName(p) else "")
  }

  /** The index of the first '.' in s, |s| when there is none. */
  function IndexOfDot(s: string): (k: nat)
    ensures k <= |s|
    ensures k < |s| ==> s[k] == '.'
    ensures forall i :: 0 <= i < k ==> s[i] != '.'
  {
    if s == [] then 0 else if s[0] == '.' then 0 else 1 + IndexOfDot(s[1..])
  }

  /** The pick number a board label starts with: the integer before its first '.'. */
  function LabelPick(text: string): int {
    var k := IndexOfDot(text);
    if IsIntText(text[..k]) then ParseInt(text[..k]) else 0
  }

  /** A board label starts with its pick number and ". ", and reads back as that number. */
  lemma BoardLabelPick(pick: int, name: string, p: Position)
    ensures |IntText(pick)| + 2 <= |BoardLabel(pick, name, p)|
    ensures BoardLabel(pick, name, p)[..|IntText(pick)| + 2] == IntText(pick) + ". "
    ensures LabelPick(BoardLabel(pick, name, p)) == pick
  {
    var t := IntText(pick);
    var text := BoardLabel(pick, name, p);
    IntTextRoundTrip(pick);
    assert text == t + (". " + name + (if p != DST then ", " + PositionName(p) else ""));
    assert text[|t|] == '.';
    assert forall i :: 0 <= i < |t| ==> text[i] == t[i];
    assert IndexOfDot(text) == |t|;
    assert text[..|t|] == t;
    assert text[..|t| + 2] == t + ". ";
  }

  /** After "<pick>. " a board label holds the name, followed by ", <POS>" unless the
      position is D/ST. */
  lemma BoardLabelParts(pick: int, name: string, p: Position)
    ensures var text, start := BoardLabel(pick, name, p), |IntText(pick)| + 2;
            if p == DST then text[start..] == name
            else
              && |text| == start + |name| + 2 + |PositionName(p)|
              && text[start..start + |name|] == name
              && text[start + |name|..] == ", " + PositionName(p)
  {
    var text, start := BoardLabel(pick, name, p), |IntText(pick)| + 2;
    var t := IntText(pick);
    if p == DST {
      assert text == (t + ". ") + name;
    } else {
      assert text == (t + ". ") + name + (", " + PositionName(p));
    }
  }

  /** Board labels of different picks are different, whatever the names and positions,
      so the board labels of a table with distinct pick numbers are unique keys. */
  lemma BoardLabelsDistinct(pick1: int, name1: string, p1: Position, pick2: int, name2: string, p2: Position)
    requires pick1 != pick2
    ensures BoardLabel(pick1, name1, p1) != BoardLabel(pick2, name2, p2)
  {
    BoardLabelPick(pick1, name1, p1);
    BoardLabelPick(pick2, name2, p2);
  }

}

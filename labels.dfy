/**
 * The strings map composition builds with f-strings: buffer tooltips, feature-group
 * names, the keys of the cluster-group dictionary and marker tooltips, with the
 * facts that keep them apart.
 */
module Labels {

  function DigitChar(d: nat): (c: char)
    requires d < 10
    ensures c as int == d + '0' as int
  {
    (d + '0' as int) as char
  }

  /** The decimal spelling of a natural number, without leading zeros. */
  function Decimal(n: nat): (s: string)
    ensures |s| >= 1
    ensures n < 10 <==> |s| == 1
    decreases n
  {
    if n < 10 then [DigitChar(n)] else Decimal(n / 10) + [DigitChar(n % 10)]
  }

  /** Different numbers are spelled differently. */
  lemma {:induction false} DecimalInjective(a: nat, b: nat)
    requires Decimal(a) == Decimal(b)
    ensures a == b
  {
    var sa, sb := Decimal(a), Decimal(b);
    if a < 10 {
      assert sa[0] == DigitChar(a) && sb[0] == DigitChar(b);
    } else {
      assert b >= 10;
      assert sa[|sa| - 1] == DigitChar(a % 10) && sb[|sb| - 1] == DigitChar(b % 10);
      assert sa[..|sa| - 1] == Decimal(a / 10) && sb[..|sb| - 1] == Decimal(b / 10);
      DecimalInjective(a / 10, b / 10);
    }
  }

  /** Every two-digit number is spelled with two characters. */
  lemma TwoDigits(n: nat)
    requires 10 <= n < 100
    ensures |Decimal(n)| == 2
  {
    assert Decimal(n) == Decimal(n / 10) + [DigitChar(n % 10)];
  }

  /** The tooltip of a buffer: station, a dash and the range in kilometres. */
  function RangeTooltip(station: string, km: nat): (t: string)
    ensures |t| > |station| + 11
    ensures t[..|station|] == station
    ensures t[|t| - 8..] == "km range"
  {
    station + " - " + Decimal(km) + "km range"
  }

  /** Two buffers with two-digit ranges share a tooltip only when they share both
      the station and the range. */
  lemma RangeTooltipIdentifiesBuffer(s1: string, km1: nat, s2: string, km2: nat)
    requires 10 <= km1 < 100 && 10 <= km2 < 100
    requires RangeTooltip(s1, km1) == RangeTooltip(s2, km2)
    ensures s1 == s2 && km1 == km2
  {
    TwoDigits(km1);
    TwoDigits(km2);
    var t := RangeTooltip(s1, km1);
    assert |s1| == |s2|;
    assert s1 == t[..|s1|] == s2;
    assert Decimal(km1) == t[|s1| + 3..|s1| + 5] == Decimal(km2);
    DecimalInjective(km1, km2);
  }

  function RangeGroupName(station: string): string { "Ranges " + station }

  function MainGroupName(station: string): string { "Main Clusters - " + station }

  function ReplacementGroupName(station: string): string { "Replacement Clusters - " + station }

  /** The three families of group names never meet, and each names one station. */
  lemma GroupNamesDistinct(s1: string, s2: string)
    ensures RangeGroupName(s1) != MainGroupName(s2)
    ensures RangeGroupName(s1) != ReplacementGroupName(s2)
    ensures MainGroupName(s1) != ReplacementGroupName(s2)
    ensures RangeGroupName(s1) == RangeGroupName(s2) ==> s1 == s2
    ensures MainGroupName(s1) == MainGroupName(s2) ==> s1 == s2
    ensures ReplacementGroupName(s1) == ReplacementGroupName(s2) ==> s1 == s2
  {
    assert RangeGroupName(s1)[0] == 'R' && RangeGroupName(s1)[1] == 'a';
    assert MainGroupName(s1)[0] == 'M' && MainGroupName(s2)[0] == 'M';
    assert ReplacementGroupName(s2)[0] == 'R' && ReplacementGroupName(s2)[1] == 'e';
    if RangeGroupName(s1) == RangeGroupName(s2) {
      assert s1 == RangeGroupName(s1)[7..];
    }
    if MainGroupName(s1) == MainGroupName(s2) {
      assert s1 == MainGroupName(s1)[16..];
    }
    if ReplacementGroupName(s1) == ReplacementGroupName(s2) {
      assert s1 == ReplacementGroupName(s1)[23..];
    }
  }

  /** The cluster-group dictionary key of a station's main clusters. */
  function MainKey(station: string): string { station + "_main" }

  /** The cluster-group dictionary key of a station's replacement clusters. */
  function ReplacementKey(station: string): string { station + "_replacement" }

  /** Keys made by appending a role suffix never collide: a main key is never a
      replacement key, and each key belongs to one station. */
  lemma ClusterKeysDistinct(s1: string, s2: string)
    ensures MainKey(s1) != ReplacementKey(s2)
    ensures MainKey(s1) == MainKey(s2) ==> s1 == s2
    ensures ReplacementKey(s1) == ReplacementKey(s2) ==> s1 == s2
  {
    var m, r := MainKey(s1), ReplacementKey(s2);
    assert m[|m| - 1] == 'n' && r[|r| - 1] == 't';
    if MainKey(s1) == MainKey(s2) {
      assert s1 == MainKey(s1)[..|s1|] == MainKey(s2)[..|s2|] == s2;
    }
    if ReplacementKey(s1) == ReplacementKey(s2) {
      assert s1 == ReplacementKey(s1)[..|s1|] == ReplacementKey(s2)[..|s2|] == s2;
    }
  }

  /** The tooltip of a station marker: the station's name between a fixed prefix and
      a fixed suffix. */
  function MarkerTooltip(station: string): (t: string)
    ensures |t| == |station| + 22
    ensures t[..13] == "Click to see " && t[13..|t| - 9] == station && t[|t| - 9..] == " location"
  {
    "Click to see " + station + " location"
  }

  /** Different stations' markers have different tooltips. */
  lemma MarkerTooltipIdentifiesStation(s1: string, s2: string)
    requires MarkerTooltip(s1) == MarkerTooltip(s2)
    ensures s1 == s2
  {
    var t := MarkerTooltip(s1);
    assert s1 == t[13..|t| - 9] == s2;
  }
}

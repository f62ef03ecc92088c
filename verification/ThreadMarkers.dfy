/** What a marker is, said of decimal numerals. */
module ThreadMarkers {
  import opened Text
  import opened XThread

  /** The decimal numeral of a number, without leading zeros. */
  function Decimal(n: nat): (s: string)
    ensures s != "" && forall k | 0 <= k < |s| :: Digit(s[k])
    ensures n > 0 ==> '1' <= s[0] <= '9'
  {
    var last := [('0' as int + n % 10) as char];
    if n < 10 then last else Decimal(n / 10) + last
  }

  /** The text is the fraction number/total, and then ends or goes on with whitespace. */
  predicate StartsWithFraction(s: string, number: nat, total: nat) {
    var head := Decimal(number) + "/" + Decimal(total);
    head <= s && (|s| > |head| ==> IsSpace(s[|head|]))
  }

  // --- numerals and their values ---

  lemma {:induction false} NumeralOf(s: string, i: nat, j: nat)
    requires i < j <= |s| && (forall k | i <= k < j :: Digit(s[k])) && s[i] != '0'
    ensures Number(s, i, j) > 0 && Decimal(Number(s, i, j)) == s[i..j]
    decreases j - i
  {
    if j == i + 1 {
      assert Number(s, i, i) == 0;
    } else {
      NumeralOf(s, i, j - 1);
      var front, d := Number(s, i, j - 1), DigitValue(s[j - 1]);
      LastDigit(front, d);
      assert s[i..j] == s[i..j - 1] + [s[j - 1]];
    }
  }

  lemma {:induction false} LastDigit(front: nat, d: nat)
    requires front > 0 && d < 10
    ensures Decimal(10 * front + d) == Decimal(front) + [('0' as int + d) as char]
  {
    assert (10 * front + d) / 10 == front && (10 * front + d) % 10 == d;
  }

  lemma {:induction false} ValueOf(s: string, i: nat, n: nat)
    requires i + |Decimal(n)| <= |s| && s[i..i + |Decimal(n)|] == Decimal(n)
    ensures Number(s, i, i + |Decimal(n)|) == n
    decreases n
  {
    var d, j := Decimal(n), i + |Decimal(n)|;
    assert s[j - 1] == s[i..j][|d| - 1];
    if n >= 10 {
      var front := Decimal(n / 10);
      assert s[i..i + |front|] == s[i..j][..|front|] == front;
      ValueOf(s, i, n / 10);
    } else {
      assert Number(s, i, i) == 0;
    }
  }

  lemma {:induction false} DigitsEndAt(s: string, i: nat, e: nat)
    requires i <= e <= |s| && (forall k | i <= k < e :: Digit(s[k])) && (e < |s| ==> !Digit(s[e]))
    ensures DigitsEnd(s, i) == e
    decreases e - i
  {
    if i < e { DigitsEndAt(s, i + 1, e); }
  }

  lemma {:induction false} DigitsEndIs(s: string, i: nat)
    requires i <= |s|
    ensures var e := DigitsEnd(s, i); (forall k | i <= k < e :: Digit(s[k])) && (e < |s| ==> !Digit(s[e]))
    decreases |s| - i
  {
    if i < |s| && Digit(s[i]) { DigitsEndIs(s, i + 1); }
  }

  // --- markers ---

  lemma {:induction false} MarkerIsFraction(s: string, i: nat)
    requires i <= |s| && MarkerAt(s, i).Some?
    ensures var m := MarkerAt(s, i).value;
            m.start == i && m.number > 0 && m.total > 0 && StartsWithFraction(s[i..], m.number, m.total)
  {
    var a := DigitsEnd(s, i);
    var b := DigitsEnd(s, a + 1);
    DigitsEndIs(s, i);
    DigitsEndIs(s, a + 1);
    NumeralOf(s, i, a);
    NumeralOf(s, a + 1, b);
    hide Decimal, Number, DigitsEnd, IsSpace;
    var head := s[i..a] + "/" + s[a + 1..b];
    assert head == s[i..b] && s[i..][..b - i] == head;
    assert b < |s| ==> s[i..][b - i] == s[b];
  }

  lemma {:induction false} FractionIsMarker(s: string, i: nat, number: nat, total: nat)
    requires i <= |s| && number > 0 && total > 0 && StartsWithFraction(s[i..], number, total)
    ensures MarkerAt(s, i) == Some(Mark(i, number, total))
  {
    var n, t := Decimal(number), Decimal(total);
    var a := i + |n|;
    var b := a + 1 + |t|;
    hide Decimal, Number, DigitsEnd, IsSpace;
    var head := n + "/" + t;
    assert s[i..][..|head|] == head;
    assert forall k | i <= k < b :: s[k] == s[i..][k - i] == head[k - i];
    assert s[i..a] == n && s[a] == '/' && s[a + 1..b] == t;
    assert forall k | i <= k < a :: s[k] == n[k - i];
    assert forall k | a + 1 <= k < b :: s[k] == t[k - a - 1];
    assert b < |s| ==> s[i..][|head|] == s[b];
    assert b < |s| ==> !Digit(s[b]) by { SpaceIsNoDigit(s, b); }
    DigitsEndAt(s, i, a);
    DigitsEndAt(s, a + 1, b);
    ValueOf(s, i, number);
    ValueOf(s, a + 1, total);
  }

  lemma {:induction false} SpaceIsNoDigit(s: string, b: nat)
    ensures b < |s| && IsSpace(s[b]) ==> !Digit(s[b])
  {
  }

  /** A marker is there exactly if the text goes on with a fraction of positive numerals, of any number of digits. */
  lemma {:induction false} MarkerIffFraction(s: string, i: nat, m: Mark)
    requires i <= |s|
    ensures MarkerAt(s, i) == Some(m) <==>
              m.start == i && m.number > 0 && m.total > 0 && StartsWithFraction(s[i..], m.number, m.total)
  {
    hide MarkerAt, StartsWithFraction;
    if MarkerAt(s, i) == Some(m) {
      MarkerIsFraction(s, i);
    } else if m.start == i && m.number > 0 && m.total > 0 && StartsWithFraction(s[i..], m.number, m.total) {
      FractionIsMarker(s, i, m.number, m.total);
    }
  }

  lemma {:induction false} MarkersFromAre(s: string, i: nat, m: Mark)
    requires i <= |s|
    ensures m in MarkersFrom(s, i) <==> i <= m.start < |s| && LineStart(s, m.start) && MarkerAt(s, m.start) == Some(m)
    decreases |s| - i
  {
    hide MarkerAt;
    if i < |s| { MarkersFromAre(s, i + 1, m); }
  }

  /** The markers are exactly the fractions that lines start with, from top to bottom. */
  lemma {:induction false} MarkersAreFractions(s: string)
    ensures forall m :: m in Markers(s) <==>
              && m.start < |s| && (m.start == 0 || s[m.start - 1] == '\n')
              && m.number > 0 && m.total > 0 && StartsWithFraction(s[m.start..], m.number, m.total)
    ensures forall k, l | 0 <= k < l < |Markers(s)| :: Markers(s)[k].start < Markers(s)[l].start
  {
    MarkersInText(s);
    hide MarkerAt, StartsWithFraction, MarkersFrom;
    forall m
      ensures m in Markers(s) <==>
                && m.start < |s| && (m.start == 0 || s[m.start - 1] == '\n')
                && m.number > 0 && m.total > 0 && StartsWithFraction(s[m.start..], m.number, m.total)
    {
      MarkersFromAre(s, 0, m);
      if m.start <= |s| { MarkerIffFraction(s, m.start, m); }
    }
  }

  /** A thread is accepted exactly if it has 1 to 12 markers, they count 1/n, 2/n, ... n/n, and the first one is
      preceded by whitespace alone; its parts are never blank. */
  lemma {:induction false} AcceptedIffNumbered(s: string)
    ensures Accepted(s) <==>
              var marks := Markers(s);
              && 1 <= |marks| <= 12 && marks[0].start <= |s| && (forall i | 0 <= i < marks[0].start :: IsSpace(s[i]))
              && forall k | 0 <= k < |marks| :: marks[k].number == k + 1 && marks[k].total == |marks|
  {
    MarkersInText(s);
    MarkersAscend(s, 0);
    var marks := Markers(s);
    forall k | 0 <= k < |marks| ensures !Blank(Part(s, marks, k)) {
      PartIsNotBlank(s, k);
    }
    hide MarkersFrom, Part, IsSpace;
    if marks != [] {
      var before := s[..marks[0].start];
      assert forall i | 0 <= i < |before| :: before[i] == s[i];
    }
  }

  lemma {:induction false} PartIsNotBlank(s: string, k: nat)
    requires k < |Markers(s)|
    ensures !Blank(Part(s, Markers(s), k))
  {
    MarkersAscend(s, 0);
    var marks := Markers(s);
    hide MarkersFrom, TrimNewlines;
    var from, end := marks[k].start, PartEnd(s, marks, k);
    var whole := s[from..end];
    var part := TrimNewlines(whole);
    assert whole[0] == s[from] && whole[0] != '\n' && !IsSpace(whole[0]);
    assert part != "" && part[0] == whole[0];
  }
}

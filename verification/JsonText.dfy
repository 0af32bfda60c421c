/** The printed forms are the ones JavaScript prints, not only some that read back. */
module JsonText {
  import opened CodeUnits
  import opened Options
  import opened Unicode
  import opened CanonicalJson

  /** A decimal has no leading zero. */
  lemma {:induction false} DecimalIsCanonical(n: nat)
    ensures Decimal(n)[0] == '0' as int <==> n == 0
    ensures n < 10 ==> |Decimal(n)| == 1
  {
    if n >= 10 {
      DecimalIsCanonical(n / 10);
      assert Decimal(n)[0] == Decimal(n / 10)[0];
    }
  }

  /** The text reads as a string of this one unit. */
  predicate ReadsAsUnit(t: Text, u: Unit) {
    ReadString(t + [QUOTE]) == Some(([u], []))
  }

  lemma EscapeLength(t: Text)
    requires var e := ReadEscape(t + [QUOTE]); e.Some? && e.value.1 != []
    ensures var u := ReadEscape(t + [QUOTE]).value.0;
      |t| >= 1 && (u < 0x20 && ShortEscape(u).None? ==> |t| >= 5)
  {
    assert t == [] ==> t + [QUOTE] == [QUOTE];
  }

  /** No shorter text than the printed one reads as the unit. */
  lemma QuoteUnitIsShortest(u: Unit, t: Text)
    requires !High(u) && !Low(u) && ReadsAsUnit(t, u)
    ensures |QuoteUnit(u)| <= |t|
  {
    var text := t + [QUOTE];
    assert t == [] ==> text == [QUOTE];
    if t != [] {
      assert text[0] == t[0] && text[1..] == t[1..] + [QUOTE];
      if t[0] == BACKSLASH {
        var e := ReadEscape(text[1..]);
        assert ReadString(e.value.1).Some? && ReadString([]).None?;
        assert e.value.0 == [u][0];
        EscapeLength(t[1..]);
      } else if t[0] != QUOTE {
        var rest := ReadString(text[1..]);
        assert [u] == [t[0]] + rest.value.0 && ([t[0]] + rest.value.0)[0] == t[0];
      }
    }
  }
}

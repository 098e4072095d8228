/** The figures `render_gmp_card(row)` computes for one IPO row before it
    renders them: the estimated listing price, the estimated listing gain in
    percent, the profit or loss per lot, and the CSS class that colours the
    GMP and profit cells. Issue price, lot size and grey-market premium are
    whole rupees and shares (Python integers, unbounded); the percentage is a
    true division, modelled on exact reals. */
module GmpCard {

  /** The columns of an IPO row that the card's arithmetic reads. */
  datatype IpoRow = IpoRow(company: string, price: int, lot: int, gmp: int)

  datatype CardFigures = CardFigures(estPrice: int, estPct: real, cssClass: string, profitPerLot: int)

  const ProfitClass: string := "profit-text"
  const LossClass: string := "loss-text"

  /** `"profit-text" if row['GMP'] > 0 else "loss-text"`. */
  function CssClass(gmp: int): (c: string)
    ensures c == ProfitClass <==> gmp > 0
    ensures c == LossClass <==> gmp <= 0
  {
    if gmp > 0 then ProfitClass else LossClass
  }

  /** The card's figures. The source divides by the issue price, which raises
      for a price of zero, so the card exists only for a non-zero price. */
  function Figures(row: IpoRow): CardFigures
    requires row.price != 0
  {
    CardFigures(row.price + row.gmp,
                (row.gmp as real / row.price as real) * 100.0,
                CssClass(row.gmp),
                row.gmp * row.lot)
  }

  /** How the figures relate: the listing price exceeds the issue price by
      the premium; the percentage is that excess relative to the issue
      price (multiplying back recovers the premium); the profit colour is
      used exactly when the listing price is above the issue price, so a
      premium of zero is coloured as a loss. */
  lemma FiguresRelate(row: IpoRow)
    requires row.price != 0
    ensures var f := Figures(row);
      && f.estPrice - row.price == row.gmp
      && f.estPct * (row.price as real) == 100.0 * (row.gmp as real)
      && f.estPct == ((f.estPrice - row.price) as real / row.price as real) * 100.0
      && (f.cssClass == ProfitClass <==> f.estPrice > row.price)
      && (f.cssClass == LossClass <==> f.estPrice <= row.price)
  {
    var p, g := row.price as real, row.gmp as real;
    assert (g / p) * 100.0 * p == 100.0 * g by {
      assert g / p * p == g;
    }
  }

  /** For a positive issue price the percentage has the sign of the premium. */
  lemma PercentSign(row: IpoRow)
    requires row.price > 0
    ensures var f := Figures(row);
      && (f.estPct > 0.0 <==> row.gmp > 0)
      && (f.estPct == 0.0 <==> row.gmp == 0)
      && (f.estPct < 0.0 <==> row.gmp < 0)
  {
    FiguresRelate(row);
    var f := Figures(row);
    assert f.estPct * (row.price as real) == 100.0 * (row.gmp as real);
    if f.estPct > 0.0 { assert f.estPct * (row.price as real) > 0.0; }
    if f.estPct < 0.0 { assert f.estPct * (row.price as real) < 0.0; }
  }

  /** The profit per lot is the per-share gain of the estimated listing
      times the lot; for a positive lot it is positive exactly when the
      profit cell is coloured as a profit. */
  lemma LotProfit(row: IpoRow)
    requires row.price != 0
    ensures var f := Figures(row);
      && f.profitPerLot == (f.estPrice - row.price) * row.lot
      && (row.lot > 0 ==> (f.profitPerLot > 0 <==> f.cssClass == ProfitClass))
  {
    var f := Figures(row);
    if row.lot > 0 {
      if row.gmp > 0 {
        assert f.profitPerLot >= row.lot;
      } else {
        assert f.profitPerLot <= 0;
      }
    }
  }

  /** The five rows of the January 2026 snapshot give the expected cards;
      Hannah Joseph Hospital, quoted at a premium of zero, is coloured as a
      loss. */
  lemma SnapshotCards()
    ensures Figures(IpoRow("Shadowfax Technologies", 124, 120, -4))
      == CardFigures(120, -400.0 / 124.0, LossClass, -480)
    ensures Figures(IpoRow("Bharat Coking Coal", 23, 600, 22))
      == CardFigures(45, 2200.0 / 23.0, ProfitClass, 13200)
    ensures Figures(IpoRow("Shayona Engineering", 144, 1000, 35))
      == CardFigures(179, 3500.0 / 144.0, ProfitClass, 35000)
    ensures Figures(IpoRow("Hannah Joseph Hospital", 70, 2000, 0))
      == CardFigures(70, 0.0, LossClass, 0)
    ensures Figures(IpoRow("Biopol Chemicals", 108, 1200, 15))
      == CardFigures(123, 1500.0 / 108.0, ProfitClass, 18000)
  {
  }
}

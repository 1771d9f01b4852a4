/** FormatHelper (src/lib/helpers/FormatHelper.ts): its `capitalize`. Case mapping is
    ASCII-only. */
module FormatHelperModel {
  import opened Ascii
  import StringHelperModel

  /** capitalize: the first character upper-cased, the rest as it was (the rest is not
      lower-cased). */
  function Capitalize(text: string): (r: string)
    ensures |r| == |text|
    ensures text == "" ==> r == ""
  {
    seq(|text|, i requires 0 <= i < |text| => if i == 0 then UpperChar(text[0]) else text[i])
  }

  /** The two helpers' capitalize agree on every input, so this one is idempotent too. */
  lemma CapitalizeAgrees(text: string)
    ensures Capitalize(text) == StringHelperModel.Capitalize(text)
    ensures Capitalize(Capitalize(text)) == Capitalize(text)
  {
    var r := StringHelperModel.Capitalize(text);
    assert forall i :: 0 <= i < |text| ==> Capitalize(text)[i] == r[i] by {
      forall i | 0 <= i < |text| ensures Capitalize(text)[i] == r[i] {
        if i > 0 {
          assert r[i] == r[1..][i - 1];
        }
      }
    }
    StringHelperModel.CapitalizeIdempotent(text);
  }
}

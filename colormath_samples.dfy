/**
 * The literal and boundary assertions of test/unit/logic.test.js and
 * test/standalone_test.js about adjustColor, stated for all inputs where
 * the tests fix only one.
 */
module ColorMathSamples {
  import opened ColorMath

  /** Darkening black, by any percentage, leaves it black. */
  lemma DarkenBlack(percent: nat)
    ensures AdjustColor("#000000", percent, false) == "#000000"
  {
    assert Channels("#000000") == Rgb(0, 0, 0);
    AdjustColorIs("#000000", percent, false, "#000000");
  }

  /** Lightening white, by any percentage, leaves it white. */
  lemma LightenWhite(percent: nat)
    ensures AdjustColor("#ffffff", percent, true) == "#ffffff"
  {
    assert Channels("#ffffff") == Rgb(255, 255, 255);
    AdjustColorIs("#ffffff", percent, true, "#ffffff");
  }

  /** The amounts the callers use: 38 for 15 percent, 26 for 10 percent. */
  lemma CallerAmounts()
    ensures Amount(15) == 38 && Amount(10) == 26
  {
  }

  lemma AzulChannels(color: string)
    requires color == "#007acc"
    ensures IsHexColor(color) && Channels(color) == Rgb(0x00, 0x7a, 0xcc)
  {
  }

  lemma LightAzulChannels(color: string)
    requires color == "#26a0f2"
    ensures IsLowerHexColor(color) && Channels(color) == Rgb(0x26, 0xa0, 0xf2)
  {
  }

  lemma DarkAzulChannels(color: string)
    requires color == "#0060b2"
    ensures IsLowerHexColor(color) && Channels(color) == Rgb(0x00, 0x60, 0xb2)
  {
  }

  /** The unit test's lightening case: `#007acc` by 15 percent is `#26a0f2`. */
  lemma LightenSample(color: string)
    requires color == "#007acc"
    ensures AdjustColor(color, 15, true) == "#26a0f2"
  {
    AzulChannels(color);
    var expected := "#26a0f2";
    LightAzulChannels(expected);
    assert Amount(15) == 38;
    AdjustColorIs(color, 15, true, expected);
  }

  /** The unit test's darkening case: `#007acc` by 10 percent is `#0060b2`. */
  lemma DarkenSample(color: string)
    requires color == "#007acc"
    ensures AdjustColor(color, 10, false) == "#0060b2"
  {
    AzulChannels(color);
    var expected := "#0060b2";
    DarkAzulChannels(expected);
    assert Amount(10) == 26;
    AdjustColorIs(color, 10, false, expected);
  }

  /** The standalone test's cases, through the `padStart` encoding; the lighter colour differs from the original. */
  lemma PaddedSamples(color: string)
    requires color == "#007acc"
    ensures AdjustColorPadded(color, 15, true) == "#26a0f2" != color
    ensures AdjustColorPadded(color, 10, false) == "#0060b2"
  {
    AzulChannels(color);
    PaddedAgreesWithOffset(color, 15, true);
    PaddedAgreesWithOffset(color, 10, false);
    LightenSample(color);
    DarkenSample(color);
  }
}

/**
 * The colour palette component: a row of colour slots, the selected colour, and a hidden
 * colour input that edits one slot at a time. The slots and the selection belong to the
 * parent component (`setColors`, `onColorChange`); here they are fields of one object.
 */
module Palette {
  import opened JsText
  import Color

  /** The value the hidden colour input shows: the edited slot in "#rrggbb" form, or white. */
  function PickerValue(colors: seq<string>, pickerIndex: Option<nat>): (value: string)
    requires pickerIndex.Some? ==> pickerIndex.value < |colors|
    ensures |value| >= 7 && value[0] == '#'
    ensures pickerIndex.None? ==> value == "#ffffff"
  {
    match pickerIndex
    case None => "#ffffff"
    case Some(i) => Color.RgbToHex(colors[i])
  }

  /**
   * A slot holding canonical "rgb(r, g, b)" text with byte channels is shown as a colour
   * input value that converts back to exactly that slot's text.
   */
  lemma PickerShowsSlot(colors: seq<string>, i: nat, c: Color.Rgb)
    requires i < |colors| && c.InByteRange() && colors[i] == Color.RgbText(c)
    ensures Color.IsHexColor(PickerValue(colors, Some(i)))
    ensures Color.HexToRgb(PickerValue(colors, Some(i))) == colors[i]
  {
    Color.RgbTextMatches(c);
    Color.RgbToHexOfBytes(colors[i]);
    Color.RgbRoundTrip(c);
  }

  class ColorPalette {
    var colors: seq<string>
    var selectedColor: string
    /** The slot whose colour input is open, if any. */
    var pickerIndex: Option<nat>

    ghost predicate Valid()
      reads this
    {
      pickerIndex.Some? ==> pickerIndex.value < |colors|
    }

    constructor(colors: seq<string>, selectedColor: string)
      ensures Valid()
      ensures this.colors == colors && this.selectedColor == selectedColor && pickerIndex == None
    {
      this.colors := colors;
      this.selectedColor := selectedColor;
      pickerIndex := None;
    }

    /** A click on a slot selects its colour. */
    method HandleColorClick(color: string)
      modifies this
      requires Valid()
      ensures Valid()
      ensures selectedColor == color
      ensures colors == old(colors) && pickerIndex == old(pickerIndex)
    {
      selectedColor := color;
    }

    /** A right click on slot `index` opens the colour input for that slot. */
    method HandleContextMenu(index: nat)
      modifies this
      requires Valid() && index < |colors|
      ensures Valid()
      ensures pickerIndex == Some(index)
      ensures colors == old(colors) && selectedColor == old(selectedColor)
    {
      pickerIndex := Some(index);
    }

    /** Leaving the colour input closes it. */
    method HandleBlur()
      modifies this
      requires Valid()
      ensures Valid()
      ensures pickerIndex == None
      ensures colors == old(colors) && selectedColor == old(selectedColor)
    {
      pickerIndex := None;
    }

    /**
     * The colour input reports `value`: with no slot open nothing changes; otherwise only
     * the open slot is replaced by `hexToRgb(value)`, and the selection follows it when the
     * slot held the selected colour.
     */
    method HandleColorChange(value: string)
      modifies this
      requires Valid()
      ensures Valid()
      ensures pickerIndex == old(pickerIndex)
      ensures old(pickerIndex).None? ==> colors == old(colors) && selectedColor == old(selectedColor)
      ensures old(pickerIndex).Some? ==>
        var i := old(pickerIndex).value;
        && |colors| == |old(colors)|
        && colors[i] == Color.HexToRgb(value)
        && (forall j :: 0 <= j < |colors| && j != i ==> colors[j] == old(colors)[j])
        && selectedColor == (if old(colors)[i] == old(selectedColor) then Color.HexToRgb(value) else old(selectedColor))
    {
      if pickerIndex.None? {
        return;
      }
      var i := pickerIndex.value;
      var newColor := Color.HexToRgb(value);
      var updated := colors;
      updated := updated[i := newColor];
      var previous := colors[i];
      colors := updated;
      if previous == selectedColor {
        selectedColor := newColor;
      }
    }
  }

  /**
   * Confirming the value the colour input already shows leaves a slot of canonical
   * "rgb(r, g, b)" text, and the selection, as they were.
   */
  lemma ConfirmShownValueKeepsSlot(colors: seq<string>, i: nat, c: Color.Rgb)
    requires i < |colors| && c.InByteRange() && colors[i] == Color.RgbText(c)
    ensures colors[i := Color.HexToRgb(PickerValue(colors, Some(i)))] == colors
  {
    PickerShowsSlot(colors, i, c);
  }
}

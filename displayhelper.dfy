/** The pen colour codes shared by every display item. */
module DisplayHelper {

  const ColorBlack: int := 0
  const ColorGrey: int := 1
  const ColorGreen: int := 2
  const ColorRed: int := 3
  const ColorBlue: int := 4
  const ColorPanel: int := 5
  const ColorYellow: int := 6
  const ColorOrange: int := 7
}

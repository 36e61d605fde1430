# cif input coercion, modelled in Dafny

`cif` is a command-line tool that runs Core Image filters over an image. Its
filter arguments arrive as command-line text. A small layer turns each of
these tokens into the typed graphics value a filter parameter expects. This
project models that layer:

- `readInputColor` (cif/cifio.h) dispatches a colour token by its shape to the
  `CIColor (X11ColorName)` constructors:
  - `colorWithHexString`: `#RGB`, `#RRGGBB`, `#RRGGBBAA`;
  - `colorWithRgbString`: `rgb(...)` and `rgba(...)`;
  - `colorWithHslString`: `hsl(...)` and `hsla(...)`;
  - `colorWithName`: an X11 colour name.

  A comma-separated vector of fractions is also read as a colour.
- `readInputVector` turns a comma-separated list of numbers into an ordered
  vector. It does this by replacing the commas with spaces and handing
  `"[x y z]"` to the vector's own string form.
- `readInputSize` reads either `WxH` or the vector form and gives a rectangle.
- `readInputTransform` reads one or more calls of `matrix`, `rotate`, `scale`
  and `translate`, each with a fixed number of arguments.
- `readInputMessage` tells a literal message, carried as its UTF-8 bytes,
  from an `@path` file reference.

The colour constructors are documented to return nil on failure, and the
model returns `None` for that. `readInputVector`, `readInputSize` and
`readInputTransform` document no failure result; the model gives them
`None` too, as its own choice (see "Left out").
Numbers are exact reals, not `CGFloat`. A colour channel written as a byte `b`
becomes the fraction `b / 255`.

Modules:

- `ScalarGrammar`: the shared text helpers. It holds splitting and joining
  on a separator, trimming, whitespace words, lower-casing, and decimal
  numbers with their rendering and round trips.
- `Utf8`: encoding and decoding, and the round trip between them.
- `MessageInput`, `VectorInput`, `X11ColorName`, `ColorInput`, `SizeInput`
  and `TransformInput`: one module per entry point.

The header files show declarations and doc comments, not implementations.
Where they leave the grammar open, the model makes its own choices. Some of
these follow the doc comments and their examples; others have no support in
the headers, and "Left out" lists those. The choices are:

- **Decimal numbers.** A number is an optional sign, then digits, with an
  optional `.` followed by at least one fraction digit (`255`, `0.75`, `.5`).
  Spaces around a field are allowed.
- **`rgb` and `rgba`.** Both names accept three channels (integers 0..255)
  and an optional fourth alpha in [0, 1]. The header's own example
  `rgb(255, 00, 255, 0.75)` gives a fourth argument to `rgb`.
- **`hsl` and `hsla`.** Both names accept a hue in degrees, then
  saturation and lightness as percentages 0%..100%, then an optional alpha.
  The hue is wrapped into [0, 360).
- **Colour dispatch.** The token is lower-cased first, since the name and
  function constructors take lowercase input. The checks then go in this
  order:
  1. a leading `#` is a hex triplet;
  2. a leading `rgb` is an rgb function;
  3. a leading `hsl` is an hsl function;
  4. a token that holds a comma is a vector of three or four fractions;
  5. anything else is an X11 name.
- **Sizes.** The `WxH` form splits at the first `x` or `X`. Its rectangle
  has its origin at (0, 0). The vector form takes two components (width,
  height) or four (x, y, width, height). Width and height may not be
  negative.
- **Transforms.** Calls may be separated by whitespace, by commas or by
  nothing. The result is the list of calls in written order.

## Model

| member | source | states |
|---|---|---|
| MessageInput.ReadInputMessage | cif/cifio.h:96-104 | The message is a file reference exactly when it starts with `@`, and the path is the text after the `@`. Otherwise the message is a literal whose bytes decode back to the message. |
| MessageInput.FileReferenceRoundTrip | cif/cifio.h:98-100 | Any path written after `@` is read back as a reference to exactly that path. |
| MessageInput.LiteralMessageExample | cif/cifio.h:98 | The message "hello" becomes its five ASCII bytes; `Utf8.EncodeAscii` states the general fact for ASCII text. |
| Utf8.Encode | cif/cifio.h:98 | A string of n characters takes between n and 4n bytes. Its inverse is `Utf8.Decode`, as `Utf8.DecodeEncode` states. |
| Utf8.EncodeChar | cif/cifio.h:98 | A character takes 1 to 4 bytes. It takes one byte exactly when it is ASCII. Every byte after the first is a continuation byte. |
| Utf8.Decode | cif/cifio.h:98 | Whatever the decoder accepts re-encodes to the very bytes it was given. |
| Utf8.DecodeEncode | cif/cifio.h:98 | Decoding the UTF-8 encoding of any string gives back that string. |
| Utf8.EncodeAscii | cif/cifio.h:98 | ASCII text is carried byte for byte. |
| VectorInput.VectorWithString | cif/cifio.h:109-112 | The bracketed string form gives a vector exactly when it is enclosed in `[` and `]` and every whitespace-separated word inside is a number. There is one component per word, each the number that word spells, in order. |
| VectorInput.ReadInputVector | cif/cifio.h:106-118 | A vector results exactly when every word of the token is a number, with commas and whitespace both separating words. Its k-th component is the k-th number written. `VectorInput.OneComponentPerField` ties this to one component per comma-separated field. |
| VectorInput.CommasToSpacesJoin | cif/cifio.h:108-110 | Fields joined by commas become the same fields joined by spaces. |
| VectorInput.OneComponentPerField | cif/cifio.h:107-111 | When every comma-separated field holds one number, the vector's components are exactly those numbers, one per field, in written order. The vector is read exactly when every field parses. |
| VectorInput.ReadFormattedVector | cif/cifio.h:107-112 | Any non-empty list of integers, written comma-separated, reads back as the same components in the same order. |
| VectorInput.DocExampleVector | cif/cifio.h:112 | "0,1,2" gives X = 0, Y = 1, Z = 2. |
| X11ColorName.ColorWithName | cif/CIColor+X11ColorName.h:14-19 | A name gives a colour exactly when the table holds it, and the colour is the table's entry. It is an opaque RGB colour; an unknown name never gets a default colour. |
| X11ColorName.CapitalisedNameNotFound | cif/CIColor+X11ColorName.h:16-18 | A name with an upper-case letter is never found, because the table holds lowercase names only. |
| X11ColorName.ColorWithHexString | cif/CIColor+X11ColorName.h:27-34 | A colour results exactly when the text is `#` plus 3, 6 or 8 hex digits. It is a valid RGB colour. The 3- and 6-digit forms are opaque; the 8-digit form takes its alpha from the last byte pair. |
| X11ColorName.HexShorthandDoubles | cif/CIColor+X11ColorName.h:29-30 | `#RGB` is the same colour as `#RRGGBB` with every digit doubled, for any three characters. |
| X11ColorName.HexShorthandRoundTrip | cif/CIColor+X11ColorName.h:29-30 | A shorthand digit d stands for the byte 17·d. |
| X11ColorName.HexStringRoundTrip | cif/CIColor+X11ColorName.h:27-34 | Any three or four bytes, written as `#RRGGBB` or `#RRGGBBAA`, decode back to those bytes as channels. |
| X11ColorName.HexIgnoresCase | cif/CIColor+X11ColorName.h:27-34 | Hex digits are read without regard to case. |
| X11ColorName.ColorWithRgbString | cif/CIColor+X11ColorName.h:36-41 | A colour results only from text of the form `rgb(...)` or `rgba(...)`, and it is a valid RGB colour. `RgbThreeFields` and `RgbFourFields` fix the channels and the alpha for both spellings, and `RgbOtherArity` refuses any other number of fields. |
| X11ColorName.RgbWithArguments | cif/CIColor+X11ColorName.h:36-41 | The argument fields yield only valid RGB colours, and a field count other than three or four yields none. |
| X11ColorName.RgbOtherArity | cif/CIColor+X11ColorName.h:36-41 | `rgb(...)` or `rgba(...)` with fewer than three or more than four fields names no colour, for both spellings. |
| X11ColorName.RgbThreeFields | cif/CIColor+X11ColorName.h:36-41 | `rgb(...)` or `rgba(...)` with three fields is accepted exactly when each field is a byte 0..255. The colour is opaque, with each channel the field's byte. |
| X11ColorName.RgbFourFields | cif/CIColor+X11ColorName.h:36-41 | `rgb(...)` or `rgba(...)` with four fields is accepted exactly when the first three are bytes and the fourth is an alpha in [0, 1]. The channels are the bytes and the alpha is the fourth field. |
| X11ColorName.RgbChannelRange | cif/CIColor+X11ColorName.h:36-41 | `rgb(r,g,b)` with whole-number channels is accepted exactly when all three are at most 255, and gives the channels r/255, g/255, b/255. |
| X11ColorName.RgbMatchesHex | cif/cifio.h:127-130 | `rgb(r,g,b)` and `#RRGGBB` name the same colour for every three bytes. |
| X11ColorName.ColorWithHslString | cif/CIColor+X11ColorName.h:43-48 | A colour results only from text of the form `hsl(...)` or `hsla(...)`. It is an HSL colour with hue in [0, 360) and saturation, lightness and alpha in [0, 1]. `HslChannelRange` fixes the values: s% becomes s/100, and a percentage above 100 is refused. |
| X11ColorName.ParsePercent | cif/CIColor+X11ColorName.h:43-48 | An accepted percentage ends in `%`, is a fraction in [0, 1], and is the number before the `%` divided by 100. |
| X11ColorName.PercentOfNat | cif/CIColor+X11ColorName.h:43-48 | `n%` for a whole number n is n / 100 when n is at most 100, and is refused above 100. |
| X11ColorName.HslThreeFields | cif/CIColor+X11ColorName.h:43-48 | `hsl(...)` or `hsla(...)` with three fields is accepted exactly when the first is a number and the other two are percentages. The result is opaque, with the wrapped hue and the two fractions. |
| X11ColorName.HslChannelRange | cif/CIColor+X11ColorName.h:43-48 | `hsl(h,s%,l%)` with whole numbers is accepted exactly when s and l are at most 100. It then gives hue h wrapped into [0, 360), saturation s/100, lightness l/100 and alpha 1. |
| X11ColorName.HslWithArguments | cif/CIColor+X11ColorName.h:43-48 | The argument fields yield only range-checked HSL colours. Through `ParsePercent`'s contract, each percentage is the number before its `%` divided by 100. |
| X11ColorName.WrapHuePeriodic | cif/CIColor+X11ColorName.h:43-48 | Adding a full turn of 360 degrees does not change the wrapped hue. |
| X11ColorName.HslHueWraps | cif/CIColor+X11ColorName.h:43-48 | For every whole hue h and any remaining arguments, `hsl(h+360, ...)` and `hsl(h, ...)` give the same result. |
| ColorInput.ColorFromVector | cif/cifio.h:125 | A vector gives a colour exactly when it has three or four components, each in [0, 1]. Red, green and blue are the first three components. The alpha is the fourth when there are four, and 1 otherwise. |
| ColorInput.AlphaVectorColor | cif/cifio.h:125 | Four fractions in [0, 1] become a colour whose alpha is the fourth. |
| ColorInput.VectorComponentOutOfRange | cif/cifio.h:125 | A vector with any component outside [0, 1] gives no colour. |
| ColorInput.OpaqueVectorColor | cif/cifio.h:125 | Three fractions in [0, 1] become an opaque colour, channel for channel. |
| ColorInput.ReadInputColor | cif/cifio.h:120-140 | Every colour it returns is valid, and comes from a token that, lower-cased, has one of the listed shapes. |
| ColorInput.UnlistedShapeRejected | cif/cifio.h:122-137 | A token that has none of the listed shapes gives no colour. |
| ColorInput.ReadInputColorIgnoresCase | cif/cifio.h:126-129 | A token and its lower-cased form give the same result. |
| ColorInput.NameLookedUpLowercased | cif/cifio.h:129 | A name-shaped token is looked up lower-cased. It is accepted exactly when the table holds that name. |
| ColorInput.HexDispatched | cif/cifio.h:126-128 | A token whose lower-cased form starts with `#` is read by colorWithHexString on that lower-cased form. |
| ColorInput.RgbDispatched | cif/cifio.h:130-131 | A lower-case token starting with `rgb` is read by colorWithRgbString. |
| ColorInput.HslDispatched | cif/cifio.h:132-133 | A lower-case token starting with `hsl` is read by colorWithHslString. |
| ColorInput.VectorDispatched | cif/cifio.h:125 | A lower-case token that holds a comma, and starts with none of `#`, `rgb` and `hsl`, is read as a vector colour. |
| ColorInput.ReadHexColor | cif/cifio.h:127 | `#RRGGBB` with upper-case digits, for any three bytes, reads as those bytes, opaque. Other spellings of the digits follow through `ColorInput.ReadInputColorIgnoresCase`. |
| ColorInput.DocExamplesAgree | cif/cifio.h:126-130 | `#F0F`, `#FF00FF`, `#FF00FFFF` and `rgb(255, 00, 255)` are all opaque magenta (1, 0, 1, 1). |
| ColorInput.RgbAlphaExample | cif/cifio.h:131 | `rgb(255, 00, 255, 0.75)` carries its fourth argument as alpha 0.75. |
| ColorInput.HslExamples | cif/cifio.h:132-133 | `hsl(200, 50%, 50%)` is hue 200 with saturation and lightness 0.5. With `, 0.75` added, its alpha is 0.75. |
| ColorInput.VectorColorExample | cif/cifio.h:125 | "1.0,0.5,1.0" is the opaque colour (1, 0.5, 1). |
| ColorInput.NameExample | cif/cifio.h:129 | "Fuchsia" is looked up as "fuchsia". |
| SizeInput.ReadInputSize | cif/cifio.h:142-147 | A size never has a negative width or height. A token with a size letter has its origin at (0, 0). |
| SizeInput.VectorFormSize | cif/cifio.h:143 | A token without `x` or `X` is a size exactly when readInputVector reads it as a vector that fits a rectangle, and the size is that rectangle. |
| SizeInput.ReadWxH | cif/cifio.h:143 | "WxH" and "WXH" with whole numbers give width W and height H at the origin. |
| SizeInput.ReadSizeVector | cif/cifio.h:143 | "W,H" gives width W and height H at the origin. |
| SizeInput.ReadRectVector | cif/cifio.h:142-147 | "X,Y,W,H" gives the full rectangle. |
| SizeInput.WxHMatchesVector | cif/cifio.h:143 | "WxH" and "W,H" give the same size. |
| SizeInput.NegativeWidthRejected | cif/cifio.h:142-147 | A negative width in the vector form gives no size. |
| SizeInput.ThreeComponentsRejected | cif/cifio.h:142-147 | A three-component vector gives no size. |
| TransformInput.MakeCall | cif/cifio.h:151-160 | A name and its arguments make a call exactly when they fit the arity table (matrix 6, rotate 1 or 3, scale 1 or 2, translate 2). The call keeps that name and those arguments. |
| TransformInput.MakeCallOfCall | cif/cifio.h:154-159 | Every call fits the arity table and is rebuilt from its own name and arguments. |
| TransformInput.ParseCalls | cif/cifio.h:150-165 | An accepted text yields no calls exactly when it holds nothing but separators. |
| TransformInput.ReadInputTransform | cif/cifio.h:149-165 | An accepted token holds at least one call. A token of separators only is refused. |
| TransformInput.ReadCallThenRest | cif/cifio.h:150-160 | A call followed by more text: either its name and argument count fit the table and the rest parses, and the call comes first in the result, or the whole text is refused. |
| TransformInput.SeparatorSkipped | cif/cifio.h:151 | A space or comma between calls changes nothing. |
| TransformInput.RenderedCall | cif/cifio.h:150-160 | A call with whole-number arguments, written out and followed by any text, is read back as itself, ahead of the calls of that text. |
| TransformInput.ReadRenderedCalls | cif/cifio.h:150-165 | Any non-empty list of calls with whole-number arguments, written out and joined by commas, reads back as the same calls in the same order. |
| TransformInput.ReadRenderedTransform | cif/cifio.h:149-165 | The same round trip, through readInputTransform. |
| TransformInput.UnknownCallRejected | cif/cifio.h:153-160 | A call whose name and argument count are not in the table is refused, whatever its arguments. |
| TransformInput.SkewRejected | cif/cifio.h:153-160 | "skew(1,2)" is refused. |
| TransformInput.ScaleThenTranslate | cif/cifio.h:150-160 | "scale(2),translate(3,4)" is the scale call followed by the translate call. |

## Left out

- File and stream I/O is not modelled: `toURL`, `toReadableURL`, `toWriteableURL`, `readStandardInputImage`, `readInputImage`, `readInputMessageFromFile`, `dumpToFile`, `dumpToSTDOUT` and `dumpToSTDERR`. For an `@path` message, the model stops at the file reference and does not read the file.
- `listFilters`, `listFilterArgumentsFor` and `loadCifBundles` are left out. They only pass through to the Core Image filter registry.
- `parseArguments` is left out. It is the command-line dispatch around this layer, and its header states no contract.
- `throwException` (cif/ciferr.h) and `imageWithName` (cif/CIImage+PatternName.h) are not part of this model. Failure is an `Option` instead of an exception.
- `colorWithHue:saturation:brightness:alpha:` is left out. It is a floating-point wrapper over NSColor.
- X11ColorName.ColorWithHslString: keeps the range-checked hue, saturation, lightness and alpha instead of converting them to RGB. The HSL to RGB formula is floating-point, so no property relates an hsl colour to an rgb one.
- TransformInput.ReadInputTransform: gives the list of calls in written order, not the affine matrix they compose to. So the matrix arithmetic is not modelled: rotate's degrees to radians, the pivot of `rotate(d,x,y)`, and the order of composition.
- X11ColorName.ColorWithName: the contents of the X11 table are not modelled. The table is a parameter: an immutable map from lowercase names to opaque RGB colours. So facts about particular names, such as "fuchsia" being magenta, are outside the model.
- VectorInput.ReadInputVector: a word that is not a number makes the whole vector fail. The vector's own string form may be more lenient than that, and its leniency is not modelled. The component count is not limited, because the header puts no bound on it.
- X11ColorName.ColorWithRgbString: `rgb` and `rgba` each accept both three and four arguments, and the alpha must be a fraction. A percentage alpha is not accepted.
- ScalarGrammar.ParseDecimal: reads only plain decimals (sign, digits, optional fraction). Exponents, `inf` and `nan` are refused.
- Numbers are exact reals. The precision and rounding of `CGFloat` are not modelled.
- Failure carries no error kind or offending sub-token. Every failure is `None`.
- VectorInput.ReadInputVector, SizeInput.ReadInputSize and TransformInput.ReadInputTransform return `None` on bad input; this is the model's own choice. The headers give these no failure result: `readInputSize` returns a `CGRect`, which cannot be nil; `readInputVector` has only a to-do note about raising an exception on error; `readInputTransform` says nothing. What the tool yields for bad input there is not modelled.
- SizeInput.ReadInputSize: these rules are the model's own and are not in the header: width and height may not be negative, "W,H" is a size at the origin, "X,Y,W,H" is a full rectangle, and any other component count is refused.
- X11ColorName.ColorWithHslString: wrapping the hue into [0, 360) is the model's own choice. The header does not say how a hue outside that range is treated.
- ColorInput.ColorFromVector: accepting only three or four components, each in [0, 1], is the model's own choice. The header shows just the example "1.0,0.5,1.0".
- TransformInput.ReadInputTransform: calls may be separated by whitespace, by commas or by nothing at all (`scale(2)translate(3,4)` is two calls). The header says only that one or more calls are scanned, so the separators are the model's own choice.
- SizeInput.ReadInputSize: the letter may be written `x` or `X`, and the text is split at the first such letter. The header shows only `WxH`, so both rules are the model's own choice.
- X11ColorName.ColorWithHslString: `hsla(...)` is accepted with three arguments as well as four, like `rgba(...)`. The headers show only `hsl` examples, so this is the model's own choice.
- ColorInput.ReadInputColor: lower-casing maps only the ASCII letters A to Z. Foundation's lower-casing also maps other characters (for example the Kelvin sign U+212A to `k`), so a token spelt with such characters is not looked up as the name it folds to.

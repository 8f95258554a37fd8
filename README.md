# chronos-ui core, modelled in Dafny

chronos-ui is a React component library built on a styled-system theme.
This project models the logic underneath its components: the responsive
value helpers, breakpoint selection, the style-system helpers (light/dark
`mode`, theme-scale lookup with negative tokens, truncation, pseudo-selector
props, the `__css` interpolation and the `styled` factory), the
forward-prop filter, media-query creation, colour naming and hashing, the
colour-mode provider, the function and React utilities (`runIfFn`,
`callAllHandlers`, `once`, `mergeRefs`, `safeBind`, `createContext`'s
consumer) and the prop logic of FormControl, InputGroup, InputBase, Badge,
Avatar and Toast.

JavaScript values are the datatype `Js.Value`: undefined, null, booleans,
integers, strings, arrays, objects and function references. Objects are
`Objects.Dict`: a sequence of (key, value) pairs in insertion order, which
is the order `Object.keys` and `for...in` visit for string keys. Integer-like keys, which JavaScript visits first in ascending order, are not modelled. Pure helpers are Dafny
functions with lemmas. Loops in the source (`for...in` over props, the
hashing loops, `getClosestValue`, `getToastPosition`, `isVisible`) are
methods with loop invariants, each proved equal to a specification
function. Stateful pieces are classes whose methods state their new state:
the colour-mode provider, `useMounted`, the InputGroup provider, `once`,
the memoised forward-prop test and the Toast component's timer state.

Four places in the code do something other than what their doc comments,
names or other callers indicate (see "## Findings"): the form-control
field id, the breakpoints useBreakpoint reads, AvatarGroup's excess label
and Toast's isVisible. For each, the as-written member follows the code
and the corrected member follows the intent.

`callAllHandlers` behaves as follows: handlers run in order until one
leaves the event default-prevented. An event that arrives already
prevented reaches only the first entry, which runs only when it is
defined (`Functions.AlreadyPrevented`).

Modules follow the source files: `Js` and `Objects` (JavaScript values and
objects), `Responsive` (lib/util/responsive.ts), `Providers`
(lib/system/providers.ts), `SystemUtils` (lib/system/utils.ts), `Pseudo`,
`System`, `ForwardProp`, `MediaQueries`, `Color`, `ColorMode`, `Functions`
(lib/util/function.ts), `ReactUtil` (lib/util/react.ts), `FormControl`,
`InputGroup`, `InputBase`, `Badge`, `Avatar` and `Toast`.

## Model

| member | source | states |
|---|---|---|
| Responsive.MapItems | lib/util/responsive.ts:23-30 | the array case keeps the length; a null item stays null and any other item goes through the mapper |
| Responsive.MapResponsive | lib/util/responsive.ts:22-44 | the definition of mapResponsive: arrays item by item, objects key by key, a non-nullish scalar through the mapper and null otherwise; MapResponsiveArray, MapResponsiveObject and MapResponsiveScalar state each case |
| Responsive.MapResponsiveArray | lib/util/responsive.ts:23-30 | mapResponsive of an array is an array of the same length whose i-th item is mapper(items[i]) |
| Responsive.MapResponsiveObject | lib/util/responsive.ts:32-37 | mapResponsive of an object keeps its keys in order, and each value is mapper of the original value |
| Responsive.MapEntriesShape | lib/util/responsive.ts:33-36 | the for...in accumulation appends one mapped entry per key in the order it visits them |
| Responsive.MapResponsiveScalar | lib/util/responsive.ts:39-43 | a nullish scalar maps to null; any other scalar maps to mapper(value) |
| Responsive.TrimNulls | lib/util/responsive.ts:48-50 | the result is a prefix of the input, ends in a non-null item, and everything dropped was null |
| Responsive.ValuesAt | lib/util/responsive.ts:47 | item i is the object's value at breakpoint i, or null when it is absent or nullish |
| Responsive.ObjectToArray | lib/util/responsive.ts:46-52 | the array is the per-breakpoint values without the trailing nulls: each kept item is obj[bp] ?? null, and every breakpoint past the end is nullish in obj |
| Responsive.ObjectToArrayNotation | lib/util/responsive.ts:46-52 | the loop computes exactly ObjectToArray |
| Responsive.ArrayToObjectNotation | lib/util/responsive.ts:54-62 | the loop computes exactly ArrayToObject |
| Responsive.ArrayToObjectGet | lib/util/responsive.ts:54-62 | reading breakpoint k gives the value at its position; a breakpoint no position names is absent |
| Responsive.ObjectArrayRoundTrip | lib/util/responsive.ts:46-62 | object to array to object returns every non-nullish breakpoint value and drops nullish ones |
| Responsive.IsResponsiveObjectLike | lib/util/responsive.ts:64-67 | true iff the object is non-empty and every key is a breakpoint name |
| Responsive.AllInSpec | lib/util/responsive.ts:66 | the recursive `every` check agrees with the quantified statement, both directions |
| Responsive.GetBreakpoints | lib/util/responsive.ts:11-20 | one width per breakpoint name, and xs is always 0 |
| Responsive.BreakpointNames | lib/util/responsive.ts:11-20 | the widths are named xs, sm, md, lg and xl, in that order |
| Responsive.ThemeBreakpointWidths | lib/util/responsive.ts:11-20 | a theme whose four breakpoints read as decimal widths with a unit gives xs 0 followed by those widths |
| Responsive.DefaultThemeBreakpointsDecimal | lib/tokens/breakpoints.ts:1 | the default breakpoint tokens are 640px, 768px, 1024px and 1280px |
| Responsive.DefaultBreakpointWidths | lib/util/responsive.ts:12-19 | a theme without breakpoints gives the default widths 0/640/768/1024/1280 |
| Providers.UseToken | lib/system/providers.ts:41-45 | the theme's token wins; a missing token gives a non-nullish fallback, and otherwise the token itself |
| Providers.Insert | lib/system/providers.ts:80 | insertion adds exactly one entry: the multiset grows by that entry |
| Providers.InsertAscending | lib/system/providers.ts:80 | inserting into an ascending list keeps it ascending by width |
| Providers.SortByWidth | lib/system/providers.ts:79-82 | the sorted breakpoints are ascending by width and a permutation of the input |
| Providers.SortAscending | lib/system/providers.ts:79-82 | sorting an already ascending list leaves it unchanged |
| Providers.SelectBreakpoint | lib/system/providers.ts:84-90 | the definition of the reduce: each entry whose width the screen reaches replaces the accumulator; SelectLast, SelectAmong and SelectWidest state what it picks |
| Providers.SelectLast | lib/system/providers.ts:84-90 | the reduce selects the last breakpoint whose width fits the screen, or keeps the initial one when none fits |
| Providers.SelectWidest | lib/system/providers.ts:84-90 | on ascending widths the selection is the widest breakpoint not wider than the screen |
| Providers.SelectNarrowest | lib/system/providers.ts:84-90 | a screen narrower than every width selects the first breakpoint |
| Providers.Widths | lib/system/providers.ts:79-80 | the numeric widths keep their names and order |
| Providers.WidthsOfNumbers | lib/system/providers.ts:80 | numeric breakpoint values become the (name, width) list xs..xl |
| Providers.BreakpointForAscending | lib/system/providers.ts:79-90 | on already ascending widths, useBreakpoint's choice is the selection over those widths |
| Providers.SelectionReached | lib/system/providers.ts:84-90 | over ascending widths 0/sm/md/lg/xl the reduce returns the widest breakpoint the screen reaches, and xs when it reaches none |
| Providers.BreakpointReached | lib/system/providers.ts:79-90 | sorting then reducing ascending widths gives the widest breakpoint reached |
| Providers.UseBreakpoint | lib/system/providers.ts:62-91 | corrected, useBreakpoint always answers with one of the breakpoint names |
| Providers.UseBreakpointAsWritten | lib/system/providers.ts:62-91 | the definition of useBreakpoint as written: widths from getBreakpoints(theme.breakpoints), sorted, then reduced; UseBreakpointIgnoresTheme and UseBreakpointCounterexample show the theme's widths never decide |
| Providers.BreakpointForNames | lib/system/providers.ts:79-90 | sorting and reducing never invents a name: the answer is one of the input's names |
| Providers.SelectAmong | lib/system/providers.ts:84-90 | the reduce answers with its initial name or the name of one of the entries |
| Providers.UseBreakpointReadsTheme | lib/system/providers.ts:62-90 | corrected, useBreakpoint gives the widest of the theme's own ascending breakpoints that the screen reaches |
| Providers.DefaultSelectionFor | lib/system/providers.ts:84-90 | over the default widths the selection is the closed-form DefaultBreakpointFor |
| Providers.DefaultSelectionOf | lib/system/providers.ts:79-90 | the default widths select the closed-form default breakpoint for every screen width |
| Providers.DefaultSelection | lib/system/providers.ts:62-91 | a theme without breakpoints selects the default breakpoint |
| Providers.UseBreakpointIgnoresTheme | lib/system/providers.ts:65-66 | useBreakpoint as written selects the default breakpoint whenever theme.breakpoints is an array or absent, whatever widths it holds |
| Providers.SmallWidthsSelection | lib/system/providers.ts:84-90 | widths 100/200/300/400 select xl for a 700px screen |
| Providers.SmallThemeWidths | lib/util/responsive.ts:11-20 | a theme with breakpoints 100px..400px reads as those widths |
| Providers.UseBreakpointCounterexample | lib/system/providers.ts:65-66 | with theme widths 100px..400px and a 700px screen, the code as written answers sm while the theme's widths give xl |
| Providers.GetClosestValue | lib/system/providers.ts:109-132 | the loop computes the specification ClosestValue |
| Providers.ClosestValue | lib/system/providers.ts:109-132 | the definition of getClosestValue: the breakpoint's own value when it is a key, else the downward scan; ClosestValueOwn, ClosestValueNearest, ClosestValueNone and ClosestValueIgnoresWider state its properties |
| Providers.ClosestValueOwn | lib/system/providers.ts:110-112 | a value set at the current breakpoint is returned as is |
| Providers.ScanNearest | lib/system/providers.ts:114-124 | the downward scan returns the value of the nearest narrower breakpoint that has one |
| Providers.ScanNone | lib/system/providers.ts:117-131 | a scan over breakpoints without values returns undefined |
| Providers.ClosestValueNearest | lib/system/providers.ts:114-129 | a missing value falls back to the nearest narrower breakpoint that has a value |
| Providers.ClosestValueNone | lib/system/providers.ts:114-131 | when no breakpoint up to the current one has a value, the result is undefined |
| Providers.ScanIgnoresWider | lib/system/providers.ts:117-124 | values at wider breakpoints never affect the scan |
| Providers.ClosestValueIgnoresWider | lib/system/providers.ts:117-124 | setting a value at a wider breakpoint does not change the closest value |
| Providers.UseBreakpointValue | lib/system/providers.ts:101-107 | the hook returns the BreakpointValue specification: arrays are read by position, objects by name |
| Providers.BreakpointValueByPosition | lib/system/providers.ts:105-106 | an array value is read as the nearest non-nullish item at or below the breakpoint's position |
| Providers.BreakpointValueByPositionNone | lib/system/providers.ts:101-107 | an array with no usable item at or below the position gives undefined |
| SystemUtils.Mode | lib/system/utils.ts:9-11 | light is chosen exactly when colorMode is 'light'; anything else picks dark |
| SystemUtils.NoScale | lib/system/utils.ts:16 | without a scale the value is returned unchanged |
| SystemUtils.PositiveOrNegative | lib/system/utils.ts:15-35 | the definition of positiveOrNegative: a falsy scale returns the value; '-k' resolves through the token at k; any other value through its own token; a falsy result falls back to the value; the lemmas below state each case |
| SystemUtils.PositiveToken | lib/system/utils.ts:31-34 | a value without a leading '-' is the scale's truthy entry, or the value itself |
| SystemUtils.NegativeStringToken | lib/system/utils.ts:22-25 | '-k' with a string token t resolves to '-t' |
| SystemUtils.NegativeNumberToken | lib/system/utils.ts:26-27 | '-k' with a numeric token n resolves to -n, and to the value itself when n is 0 |
| SystemUtils.NegativeOtherToken | lib/system/utils.ts:28-30 | '-k' with a token that is neither string nor number resolves to the value itself |
| SystemUtils.NegationSymmetric | lib/system/utils.ts:22-34 | '-k' resolves to exactly minus what 'k' resolves to, for a non-zero numeric token |
| SystemUtils.NegativeNumberValue | lib/system/utils.ts:20-27 | a negative number is looked up through its decimal string and negated |
| SystemUtils.TruncateProp | lib/system/utils.ts:37-55 | a numeric noOfLines gives overflow hidden, textOverflow ellipsis, display -webkit-box, WebkitBoxOrient vertical and WebkitLineClamp that count; otherwise isTruncated gives overflow hidden, textOverflow ellipsis and whiteSpace nowrap; otherwise undefined |
| Pseudo.PropName | lib/system/pseudo.ts:5-7 | a prop in the pseudo table is renamed to its selector; any other keeps its name |
| Pseudo.ParsePseudo | lib/system/pseudo.ts:9-24 | the loop computes the ParsePseudoSpec specification |
| Pseudo.ParsePseudoSpec | lib/system/pseudo.ts:9-24 | the definition of parsePseudo: the props in for...in order, renamed through the table, object values parsed recursively; ParsedKeys, ParsedPositions, ParsePseudoShape and ParsePseudoKeys state its keys and values |
| Pseudo.ParsedKeys | lib/system/pseudo.ts:12-21 | the parsed object's keys are the renamed props, with no repeated key |
| Pseudo.ParsedPositions | lib/system/pseudo.ts:12-21 | when renaming creates no clash, entry i is prop i renamed |
| Pseudo.ParsePseudoShape | lib/system/pseudo.ts:12-20 | one entry per prop, renamed through the table; object values are parsed recursively and other values are kept |
| Pseudo.ParsePseudoKeys | lib/system/pseudo.ts:12-21 | the key set is the set of renamed prop names |
| Pseudo.PseudoProps | lib/system/pseudo.ts:26-35 | the loop computes the PseudoPropsSpec specification |
| Pseudo.PseudoPropsSpec | lib/system/pseudo.ts:26-35 | the definition of pseudoProps: the spread, in prop order, of each pseudo prop's compiled style, theme excluded; PseudoOnly, PseudoPropsIgnoreOthers, LaterPseudoOverrides and NonPseudoSkipped state its properties |
| Pseudo.PseudoOnly | lib/system/pseudo.ts:29 | every prop it keeps is a pseudo prop |
| Pseudo.PseudoStylesIgnoreOthers | lib/system/pseudo.ts:28-33 | two prop objects with the same pseudo props give the same styles |
| Pseudo.PseudoStylesFromEnd | lib/system/pseudo.ts:28-33 | the styles are the spread of each pseudo prop's compiled styles, in prop order |
| Pseudo.PseudoPropsIgnoreOthers | lib/system/pseudo.ts:26-33 | non-pseudo props never affect the result |
| Pseudo.LaterPseudoOverrides | lib/system/pseudo.ts:31 | for a key compiled by a later pseudo prop, the later prop's value wins |
| Pseudo.NonPseudoSkipped | lib/system/pseudo.ts:29 | a non-pseudo prop adds nothing |
| System.CssInterpolation | lib/system/system.ts:22-31 | the __css defaults without the keys the props set explicitly are compiled against the theme |
| System.CssDefaults | lib/system/system.ts:24 | the entries of props.__css, and none when it is not an object |
| System.KeptDefaults | lib/system/system.ts:22-29 | the definition of the loop's result: the __css entries whose key the props leave absent or nullish, in order; KeptUpToGet and KeptDefaultsGet state its values |
| System.KeptUpToGet | lib/system/system.ts:24-29 | a default survives exactly when the props do not set that key |
| System.KeptDefaultsGet | lib/system/system.ts:22-31 | reading a key from the kept defaults gives the __css value when the props leave it unset, and nothing otherwise |
| System.ExplicitPropWins | lib/system/system.ts:25-28 | a key the props set is removed from the __css defaults |
| System.Styled | lib/system/system.ts:35-49 | styled produces exactly seven style interpolations |
| System.StyledOrder | lib/system/system.ts:40-48 | the interpolations are __css, baseStyle, system props, pseudo props, truncation, sx and css, in that order |
| System.StyledOptions | lib/system/system.ts:36-40 | shouldForwardProp is always set, baseStyle is taken out, and every other option is passed on |
| System.ComposeLastWins | lib/system/system.ts:40-48 | a key takes its value from the last interpolation that sets it |
| System.RenderPieces | lib/system/system.ts:40-48 | rendering yields one style object per interpolation, the truncation piece being truncateProp of the props' isTruncated and noOfLines |
| System.CssPropWins | lib/system/system.ts:46-47 | a key set by the css prop overrides every earlier interpolation, and sx overrides all but css |
| ForwardProp.PatternMatchesExactly | lib/system/should-forward-prop.ts:23 | the anchored alternation of plain names matches a string exactly when the string is one of the names |
| ForwardProp.ShouldForwardProp | lib/system/should-forward-prop.ts:20-27 | the definition of shouldForwardProp: htmlWidth, htmlHeight and htmlSize are forwarded, and any other prop when the anchored alternation of all prop names does not match it; ForwardedIff states the iff |
| ForwardProp.ExtraNamesPlain | lib/system/should-forward-prop.ts:5-18 | every blocked prop name is plain, so the built pattern is an anchored alternation |
| ForwardProp.ForwardedIff | lib/system/should-forward-prop.ts:22-27 | a prop is forwarded iff it is a valid HTML prop or is not among the style-system and extra prop names |
| ForwardProp.HtmlPropsForwarded | lib/system/should-forward-prop.ts:20-25 | htmlWidth, htmlHeight and htmlSize, the entries of validHTMLProps, are always forwarded |
| ForwardProp.ContainingNameForwarded | lib/system/should-forward-prop.ts:23-26 | a prop that only contains a blocked name, with other text around it, is forwarded |
| ForwardProp.ForwardPropMemo.constructor | lib/system/should-forward-prop.ts:22-24 | the memoised test starts with an empty cache |
| ForwardProp.ForwardPropMemo.Test | lib/system/should-forward-prop.ts:24-27 | a memoised answer equals shouldForwardProp, and the cache records it |
| MediaQueries.ToMediaString | lib/theme/helpers/responsive.ts:25-27 | numbers gain a px unit; any other value is unchanged |
| MediaQueries.CreateMediaQueries | lib/theme/helpers/responsive.ts:14-20 | one query per breakpoint, in breakpoint order: xs is min-width 0px, and the others use the theme widths in media form |
| MediaQueries.QueryRoundTrip | lib/theme/helpers/responsive.ts:16-19 | the width can be read back out of the query it built |
| MediaQueries.QueriesShape | lib/theme/helpers/responsive.ts:15-19 | every query built is a min-width query, and xs reads 0px |
| MediaQueries.NumericBreakpointQuery | lib/theme/helpers/responsive.ts:16-19 | a numeric width n reads back as 'npx', which parseInt returns as n |
| MediaQueries.StringBreakpointQuery | lib/theme/helpers/responsive.ts:16-19 | a string width is used verbatim |
| Color.GetThemeColorName | lib/theme/helpers/color.ts:123-127 | the palette name is the dot-free prefix before the first '.', and false (None) for '' |
| Color.ThemeColorNameOfPath | lib/theme/helpers/color.ts:119-127 | 'palette.shade' and 'palette' both name the palette |
| Color.IntentOf | lib/theme/helpers/color.ts:130-139 | the intent an intent name denotes, and none for an unknown name; GetIntentColorName and IntentNames state the palette it leads to |
| Color.GetIntentColorName | lib/theme/helpers/color.ts:130-140 | a known intent maps to its palette; anything else gives 'dark' |
| Color.IntentNames | lib/theme/helpers/color.ts:130-140 | the full intent table: light is gray, info blue, warning yellow, success green, danger red, and every other intent keeps its name |
| Color.ToInt32 | lib/theme/helpers/color.ts:220 | `hash & hash` yields a 32-bit signed value congruent to the input modulo 2^32 |
| Color.HashStep | lib/theme/helpers/color.ts:219-220 | one hashing step, the shift and `& hash` wrapped to signed 32 bits; HashStepIsRecurrence states it is 31*hash + code modulo 2^32 |
| Color.Hash | lib/theme/helpers/color.ts:218-221 | the hash is always a signed 32-bit integer |
| Color.HashStepIsRecurrence | lib/theme/helpers/color.ts:219-220 | one step is code + (hash << 5) - hash, which is 31*hash + code wrapped to 32 bits |
| Color.HashIsPolyMod | lib/theme/helpers/color.ts:218-221 | the hash is the base-31 polynomial of the character codes, modulo 2^32 |
| Color.HashOf | lib/theme/helpers/color.ts:215-221 | the hashing loop computes Hash |
| Color.Pad2Byte | lib/theme/helpers/color.ts:225 | the padded hex of a byte is its two hex digits |
| Color.Pad2RoundTrip | lib/theme/helpers/color.ts:225 | two hex digits are produced, and they parse back to the byte |
| Color.RandomColorFromString | lib/theme/helpers/color.ts:215-228 | the method computes ColorFromString |
| Color.ColorFromString | lib/theme/helpers/color.ts:215-228 | the definition: "0" for '', otherwise '#' and the padded hex of the hash's low three bytes; ColorFromStringShape, BytesOfWord and BytesOfHash state its form |
| Color.ColorFromStringShape | lib/theme/helpers/color.ts:217-227 | '' gives "0"; otherwise '#' followed by the hex of the low three hash bytes, lowest first |
| Color.BytesOfWord | lib/theme/helpers/color.ts:223-226 | the three bytes extracted are the low 24 bits of the hash |
| Color.BytesOfHash | lib/theme/helpers/color.ts:218-226 | the colour's bytes are the string polynomial modulo 2^24 |
| Color.JsRem | lib/theme/helpers/color.ts:237 | JavaScript's remainder takes the dividend's sign |
| Color.NormalizedIndex | lib/theme/helpers/color.ts:237 | ((a % n) + n) % n is the mathematical modulus |
| Color.RandomColorFromList | lib/theme/helpers/color.ts:230-239 | the method computes ColorFromList |
| Color.ColorFromList | lib/theme/helpers/color.ts:230-239 | the definition: list[0] for '', otherwise the item at the normalised hash index, none when the list has no such item; ColorFromListPicks states it picks a member |
| Color.ColorFromListPicks | lib/theme/helpers/color.ts:230-239 | a non-empty list always yields a member: the first for '', and otherwise the one at hash mod length |
| Color.RandomFromList | lib/theme/helpers/color.ts:241-243 | a pick exists iff the list is non-empty, and it is a list member |
| Color.RandomColor | lib/theme/helpers/color.ts:193-213 | dispatch on options: string and colors pick from the list; string alone hashes; colors alone pick at random; otherwise the fallback |
| ColorMode.Flip | lib/system/colorMode/color-mode.tsx:46 | toggling always changes the mode |
| ColorMode.FlipTwice | lib/system/colorMode/color-mode.tsx:46 | toggling twice restores the mode |
| ColorMode.GetColorModeValue | lib/system/colorMode/color-mode.tsx:82-84 | light mode selects the light value and dark mode the dark value |
| ColorMode.DarkModeContext | lib/system/colorMode/color-mode.tsx:65-67 | DarkMode forces dark with a no-op toggle |
| ColorMode.LightModeContext | lib/system/colorMode/color-mode.tsx:72-74 | LightMode forces light with a no-op toggle |
| ColorMode.ApplyToggle | lib/system/colorMode/color-mode.tsx:46-53 | a no-op toggle keeps the state; the provider's toggle flips the displayed mode |
| ColorMode.ColorModeProvider.constructor | lib/system/colorMode/color-mode.tsx:37-45 | the provider starts in its default mode, and remembers any controlled value |
| ColorMode.ColorModeProvider.Context | lib/system/colorMode/color-mode.tsx:48-57 | a controlled value is exposed with a no-op toggle; otherwise the state is exposed with a flipping toggle |
| ColorMode.ColorModeProvider.ToggleColorMode | lib/system/colorMode/color-mode.tsx:46 | an uncontrolled provider flips its mode, and a controlled one changes nothing |
| ColorMode.ToggleTwice | lib/system/colorMode/color-mode.tsx:46-57 | two toggles restore both the mode and the exposed context |
| InputBase.BorderColors | lib/InputBase.tsx:19-20 | focus and error border colours default to blue.500 and red.500 when nullish |
| InputBase.DefaultColorPalettes | lib/InputBase.tsx:19-22 | the default border colours name the blue and red palettes |
| InputBase.InputSize | lib/InputBase.tsx:315 | the prop's size wins over the group's, and md is the last default |
| InputBase.InputVariant | lib/InputBase.tsx:320 | the prop's variant wins over the group's, and standard is the last default |
| InputBase.SizeStyles | lib/InputBase.tsx:316-318 | a non-textarea element takes the size table's entry for its size |
| InputBase.TextareaSizeStyles | lib/InputBase.tsx:316-318 | a textarea takes the size entry without h, minH, height and minHeight |
| InputBase.Pieces | lib/InputBase.tsx:322-332 | the style is composed of nine pieces |
| InputBase.InputStyle | lib/InputBase.tsx:322-332 | the nine pieces spread in order; VariantReplacesKey, UnmountedSlotsAddNothing and LeftElementPadding state what the composition gives |
| InputBase.VariantReplacesKey | lib/InputBase.tsx:322-332 | when no later piece sets a key, the variant's value for it is the one used |
| InputBase.SlotKeys | lib/InputBase.tsx:237-259 | element and addon slots only set padding and border-radius keys |
| InputBase.UnmountedSlotsAddNothing | lib/InputBase.tsx:328-331 | with no element or addon mounted, the style is the composition of the first five pieces |
| InputBase.LeftElementPadding | lib/InputBase.tsx:237-242 | a mounted left element sets paddingLeft to 10 |
| InputGroup.Mounted.constructor | lib/InputGroup.tsx:15-16 | a slot starts unmounted |
| InputGroup.Mounted.Mount | lib/InputGroup.tsx:17 | mounting sets the flag |
| InputGroup.Mounted.Unmount | lib/InputGroup.tsx:18 | unmounting clears the flag |
| InputGroup.DefaultIfUndefined | lib/InputGroup.tsx:26-27 | the default replaces undefined only (null is kept) |
| InputGroup.InputGroupProvider.constructor | lib/InputGroup.tsx:24-48 | the context starts with defaulted size and variant and with no slots mounted |
| InputGroup.InputGroupProvider.HtmlProps | lib/InputGroup.tsx:25-31 | the html props are the props without inputSize, variant, focusBorderColor and errorBorderColor, and every other key keeps its value |
| InputGroup.InputGroupProvider.Context | lib/InputGroup.tsx:24-48 | the context: size and variant defaulted only when undefined, the border colours as given, and the four slots' mount flags; SetMounted and GroupDefaults state it |
| InputGroup.InputGroupProvider.SetMounted | lib/InputGroup.tsx:33-36 | mounting a slot changes only that slot's flag in the context |
| InputGroup.GroupDefaults | lib/InputGroup.tsx:26-27 | an absent size defaults to md, while an explicit null variant stays null |
| InputGroup.CloneChildren | lib/InputGroup.tsx:62-73 | one clone per valid element child |
| InputGroup.CloneChildrenOrder | lib/InputGroup.tsx:62-73 | non-element children are skipped, and elements are cloned in order |
| InputGroup.CloneProps | lib/InputGroup.tsx:67-72 | the child's props with each of the four group props set to the child's truthy value, or else the group's; ChildPrecedence states it |
| InputGroup.ChildPrecedence | lib/InputGroup.tsx:67-72 | a child's truthy group prop wins over the group's; a falsy one takes the group's; other keys are untouched |
| Functions.RunIfFn | lib/util/function.ts:11-13 | a function is applied to the arguments; any other value is returned as is |
| Functions.CallAllHandlers | lib/util/function.ts:15-22 | the loop computes the specification Calls |
| Functions.Calls | lib/util/function.ts:15-22 | the definition of callAllHandlers: the handlers run and the event after them, stopping after the first entry that leaves the event prevented; CallsArePrefix, AllHandlersRun, StopsAfterPrevention and AlreadyPrevented state its properties |
| Functions.CallsArePrefix | lib/util/function.ts:17-20 | the handlers run are the defined handlers of some prefix of the list |
| Functions.AllHandlersRun | lib/util/function.ts:15-18 | when no handler prevents the default, every defined handler runs in order |
| Functions.StopsAfterPrevention | lib/util/function.ts:17-20 | once the handler at position i prevents the default, no later handler runs |
| Functions.AlreadyPrevented | lib/util/function.ts:17-19 | an event that arrives prevented runs only the first entry, and only when that entry is defined |
| Functions.Once.constructor | lib/util/function.ts:27-28 | once starts holding the function, with no result and no runs |
| Functions.Once.Call | lib/util/function.ts:30-37 | the first call runs the function and drops it; later calls return the cached result without running |
| Functions.CallTwice | lib/util/function.ts:27-37 | two calls return the same result, and the function has run at most once |
| ReactUtil.MergeRefs | lib/util/react.ts:15-23 | every object ref receives the instance, and exactly the callback refs are called, in order |
| ReactUtil.CallbacksCalled | lib/util/react.ts:16-18 | a callback is called iff it is among the refs |
| ReactUtil.SafeBind | lib/util/react.ts:25-65 | the method computes the Bind specification over the flattened groups |
| ReactUtil.Step | lib/util/react.ts:40-57 | one [key, value] entry: a ref is collected, a non-function replaces the bound value, and a function joins its key's group and binds the combined handler |
| ReactUtil.Bind | lib/util/react.ts:39-58 | the entries applied in order from the empty state; BindSpec states what each key ends with |
| ReactUtil.BindSpec | lib/util/react.ts:39-58 | each non-ref key collects every function bound under it; its bound value is the last one given; refs are gathered apart |
| ReactUtil.RefBound | lib/util/react.ts:60-62 | the ref key holds the merged refs of all groups |
| ReactUtil.FireCombined | lib/util/react.ts:30-37 | the combined handler calls nothing once the default is prevented, and otherwise every grouped function |
| ReactUtil.UseContext | lib/util/react.ts:90-105 | a truthy context is returned; a missing one is an error unless strict is false |
| FormControl.FieldIdAsWritten | lib/FormControl.tsx:75 | as written, the id is field-uuid whenever either idProp or uuid is truthy |
| FormControl.FieldIdIgnoresIdProp | lib/FormControl.tsx:75 | idProp 'email' with uuid 7 gives field-7 as written, and email as intended |
| FormControl.FieldId | lib/FormControl.tsx:75 | a truthy idProp is the id; otherwise field-uuid; otherwise undefined |
| FormControl.FieldIdAgreement | lib/FormControl.tsx:75 | the two readings agree whenever idProp is falsy |
| FormControl.ContextFor | lib/FormControl.tsx:62-106 | for a field id: the flags are the truthiness of their props, the label, feedback and help-text ids are id-label, id-feedback and id-helptext, and htmlProps hold every other prop with its value |
| FormControl.UseFormControlProvider | lib/FormControl.tsx:62-106 | as written: the context id is field-uuid whenever idProp or uuid is truthy, and undefined otherwise; flags, derived ids and htmlProps with their values as in ContextFor |
| FormControl.UseFormControlProviderIntended | lib/FormControl.tsx:62-106 | corrected: a truthy id prop is the field id and the label id is built from it; everything else as in ContextFor |
| FormControl.ProviderIgnoresIdProp | lib/FormControl.tsx:75-79 | idProp 'email' with uuid 7 gives the label id field-7-label as written and email-label as intended |
| FormControl.DerivedIdsDistinct | lib/FormControl.tsx:77-79 | the label, feedback and help-text ids are pairwise distinct |
| FormControl.DescribedBy | lib/FormControl.tsx:152-166 | the method computes DescribedByIds |
| FormControl.DescribedByIds | lib/FormControl.tsx:152-166 | the feedback id comes first when invalid and the help-text id last when present; there is nothing outside a field |
| FormControl.AriaDescribedBy | lib/FormControl.tsx:186 | no ids gives undefined |
| FormControl.AriaDescribedByJoin | lib/FormControl.tsx:167 | non-empty ids are joined with spaces |
| FormControl.AriaAttr | lib/FormControl.tsx:183-185 | a truthy condition gives true; anything else gives undefined |
| FormControl.UseFormControl | lib/FormControl.tsx:150-190 | the control's props: rest props, id, the three states, the aria attributes, aria-describedby and the two handler chains, the field's handler before props.onFocus / props.onBlur; ControlFlags, ControlId, ControlRest, DescribedInvalidWithHelp and FocusHandlerOrder state its fields |
| FormControl.ControlFlags | lib/FormControl.tsx:180-183 | disabled, readOnly and required hold iff the prop or the field says so; aria-invalid follows the field |
| FormControl.ControlId | lib/FormControl.tsx:179 | the prop's id wins over the field's |
| FormControl.ControlRest | lib/FormControl.tsx:169-178 | the rest props are the props without the control keys |
| FormControl.DescribedInvalidWithHelp | lib/FormControl.tsx:152-186 | an invalid field with help text is described by 'feedback help' |
| FormControl.FocusHandlerOrder | lib/FormControl.tsx:187 | focus runs the field's handler first, then the prop's |
| Badge.DisplayValueReads | lib/Badge.tsx:192-197 | a dot shows nothing; a count not above max shows the count, and a larger one shows `max+` |
| Badge.DisplayValue | lib/Badge.tsx:192-197 | the definition: empty for a dot; otherwise the count (0 by default), or max (99 by default) and '+' when the count is above max; DisplayValueReads and DefaultDisplay state it |
| Badge.DefaultDisplay | lib/Badge.tsx:192-197 | with no props the display is "0" |
| Badge.Invisible | lib/Badge.tsx:9-21 | invisible iff requested, or the count (0 by default) is zero and showZero is not set |
| Badge.BoxShadow | lib/Badge.tsx:56 | an outlined visible badge gets a 2px ring in the shadow colour; otherwise none |
| Badge.Dot | lib/Badge.tsx:62-70 | only the dot variant gets the dot style: borderRadius full, height 3, minWidth 3 and padding 0 |
| Badge.AnchorsArePlacements | lib/Badge.tsx:72-158 | every anchor combination is the general placement at the overlap offset |
| Badge.Anchors | lib/Badge.tsx:72-158 | the definition: the placement for each overlap and anchor pair, scaled to 0 when invisible, and undefined for any other combination; AnchorsArePlacements and the four corner lemmas state it |
| Badge.TopRight | lib/Badge.tsx:74-83 | top-right translates by (50%, -50%) and has its origin at 100% 0% |
| Badge.TopLeft | lib/Badge.tsx:85-94 | top-left translates by (-50%, -50%) and has its origin at 0% 0% |
| Badge.BottomRight | lib/Badge.tsx:96-103 | bottom-right translates by (50%, 50%) and has its origin at 100% 100% |
| Badge.BottomLeft | lib/Badge.tsx:105-114 | bottom-left translates by (-50%, 50%) and has its origin at 0% 100% |
| Badge.DefaultAnchors | lib/Badge.tsx:10-12 | the default anchor is top-right on a rectangle |
| Avatar.Initials | lib/Avatar.tsx:210-213 | at most two characters, taken from the first two space-separated words |
| Avatar.InitialsOfTwoWords | lib/Avatar.tsx:210-213 | 'First Last …' gives the first letters of the first two words |
| Avatar.InitialsOfOneWord | lib/Avatar.tsx:210-213 | a single word gives its first letter, and '' gives '' |
| Avatar.InitialsWithEmptySecondWord | lib/Avatar.tsx:211-212 | a double space leaves only the first initial |
| Avatar.InitialsWithEmptyFirstWord | lib/Avatar.tsx:210-213 | a leading space makes the first word empty, and the initials are then '' |
| Avatar.AvatarBg | lib/Avatar.tsx:23 | no name gives gray.400; a name gives its hashed colour |
| Avatar.AvatarBgIsHex | lib/Avatar.tsx:23 | a named avatar's colour is a 7-character '#' hex string that does not depend on the random fallback |
| Avatar.AvatarColor | lib/Avatar.tsx:24 | the text is gray.800 iff the avatar has a name and its background is light, and white otherwise |
| Avatar.Defaulted | lib/Avatar.tsx:408 | a destructuring default replaces only an absent value |
| Avatar.Slice0 | lib/Avatar.tsx:417 | slice(0, end) clamps end into range, counts a negative end from the back, and returns that prefix |
| Avatar.WithinMax | lib/Avatar.tsx:417 | the kept children are a prefix of the children; no max (or 0) keeps them all |
| Avatar.ExcessAsWritten | lib/Avatar.tsx:422 | as written, the excess renders whatever `max != null && len - max` evaluates to |
| Avatar.ExcessAsWrittenCounterexamples | lib/Avatar.tsx:422 | 2 children with max 4 label '+-2'; 4 with max 4 render the text '0'; max 0 keeps all 3 but labels '+3' |
| Avatar.Excess | lib/Avatar.tsx:422 | a label appears iff some children are hidden, and it reads '+' and the hidden count |
| Avatar.ExcessAgrees | lib/Avatar.tsx:422 | when 0 < max < count, the code as written and the corrected excess agree |
| Avatar.ExcessReads | lib/Avatar.tsx:464 | the label parses back to the number of hidden children |
| Avatar.Reverse | lib/Avatar.tsx:428 | reversal maps position i to position n-1-i |
| Avatar.Clones | lib/Avatar.tsx:428-439 | one clone per kept child |
| Avatar.CloneProps | lib/Avatar.tsx:430-439 | the child's props with mr 0 for the first clone and the spacing otherwise, the group size, the child's truthy border colour or else the group's, and showBorder; CloneSpec states it |
| Avatar.CloneSpec | lib/Avatar.tsx:430-439 | clone i comes from the i-th child from the end; mr is 0 for the first and the spacing otherwise; size, border and border colour are set; other props are kept |
| Avatar.GroupClones | lib/Avatar.tsx:408-439 | the definition: Clones of the kept children with size defaulting to md and spacing to -0.8rem; one clone per kept child; CloneSpec states each clone and GroupCloneDefaults the defaults |
| Avatar.GroupCloneDefaults | lib/Avatar.tsx:408-435 | without size and spacing, the clones get md and -0.8rem |
| Toast.StrictEq | lib/Toast.tsx:80 | === on ids: same kind and same value |
| Toast.ToNumber | lib/Toast.tsx:90 | Number(s) on the strings modelled: '' is 0, an optional '-' and digits give that integer, anything else is NaN (none) |
| Toast.LooseEq | lib/Toast.tsx:90 | == on ids: two of a kind compare as ===, a string and a number after Number(); StrictImpliesLoose, LooseNumberString and LooseButNotStrict state it |
| Toast.StrictImpliesLoose | lib/Toast.tsx:80-90 | strictly equal ids are loosely equal |
| Toast.LooseNumberString | lib/Toast.tsx:90 | a number equals, under ==, the decimal string of that number |
| Toast.LooseButNotStrict | lib/Toast.tsx:90 | "7" == 7 and "" == 0 hold loosely but not strictly |
| Toast.FindIndex | lib/Toast.tsx:79-81 | the first index whose id matches, or -1 when none does |
| Toast.FindById | lib/Toast.tsx:79-81 | nothing is found iff no toast has a strictly equal id; otherwise the first such toast |
| Toast.LastTrue | lib/Toast.tsx:227-230 | the last index flagged true, or none when no index is flagged |
| Toast.LastPosition | lib/Toast.tsx:224-233 | none iff no position holds the id; otherwise the last position that holds it |
| Toast.GetToastPosition | lib/Toast.tsx:224-233 | the loop returns LastPosition over the positions in key order |
| Toast.FindToast | lib/Toast.tsx:87-96 | none when position is undefined; otherwise the position with the loosely matching index |
| Toast.FindToastIndex | lib/Toast.tsx:87-96 | a missing toast gives index -1; a found one is at or before its strict index and matches loosely |
| Toast.IsVisible | lib/Toast.tsx:239-247 | as written, visibility is decided by the last position list alone |
| Toast.IsVisibleMissesEarlierPositions | lib/Toast.tsx:239-247 | a toast at top with an empty last position reads as not visible |
| Toast.IsVisibleAnywhere | lib/Toast.tsx:235-247 | visible iff some position list holds the id |
| Toast.VisibleIffPosition | lib/Toast.tsx:224-247 | visible anywhere iff getToastPosition finds a position |
| Toast.GetToastStyle | lib/Toast.tsx:253-267 | a flex column whose alignment is flex-end for right positions, flex-start for left ones, and center otherwise |
| Toast.IncludesPicksAlignment | lib/Toast.tsx:253-267 | the substring tests on the position name give flex-end for both right positions, flex-start for both left ones and center for top and bottom |
| Toast.ToastPositionOf | lib/Toast.tsx:109 | a toast without a position sits at the bottom |
| Toast.EnterOffset | lib/Toast.tsx:153-161 | a position whose name contains 'top' enters from -height px; any other from 0 |
| Toast.TopPositionsSlideDown | lib/Toast.tsx:153-161 | the enter offset is non-zero exactly for top, top-right and top-left |
| Toast.DurationOf | lib/Toast.tsx:110 | an absent duration prop defaults to 5000 ms, and an explicit value is kept |
| Toast.Step | lib/Toast.tsx:115-146 | one event: a duration change resets the delay, hovering clears it, leaving restores the duration; close, a true request and an elapsed set delay hide the toast; StepShow states its effect |
| Toast.Run | lib/Toast.tsx:115-146 | the events applied in order; HiddenStaysHidden, HoverPauses and PausedTimer state what runs of events do |
| Toast.HiddenStaysHidden | lib/Toast.tsx:136-144 | once hidden, no event shows the toast again |
| Toast.StepShow | lib/Toast.tsx:115-146 | no event shows a hidden toast; a shown toast is hidden exactly by close, a true close request, or the timer while a delay is set |
| Toast.HoverPauses | lib/Toast.tsx:121-127 | after hovering, any number of timer events leave the toast as shown as it was; leaving restores the delay to the duration |
| Toast.PausedTimer | lib/Toast.tsx:146 | any number of timer events while paused change nothing |
| Toast.ToastComponent.constructor | lib/Toast.tsx:114-115 | the component starts shown, with the delay equal to the (defaulted) duration |
| Toast.ToastComponent.SetDuration | lib/Toast.tsx:117-119 | a duration change resets the delay |
| Toast.ToastComponent.OnMouseEnter | lib/Toast.tsx:121-123 | hovering pauses the timer |
| Toast.ToastComponent.OnMouseLeave | lib/Toast.tsx:125-127 | leaving resumes it with the full duration |
| Toast.ToastComponent.OnClose | lib/Toast.tsx:136-138 | closing hides the toast |
| Toast.ToastComponent.OnRequestClose | lib/Toast.tsx:140-144 | a true request hides it, and a false one changes nothing |
| Toast.ToastComponent.OnTimeout | lib/Toast.tsx:146 | an elapsed timer hides it |
| Toast.ToastComponent.OnExited | lib/Toast.tsx:129-134 | after the exit transition, removal is requested iff the toast is hidden; the close-complete callback runs iff given, after the removal |

## Left out

- JavaScript numbers are unbounded integers. NaN, infinities and fractions are not modelled.
  - Providers.UseBreakpoint: requires every breakpoint width to be numeric; a NaN width is not modelled.
  - `sort`'s order among equal widths is not modelled.
- Js.ParseInt: reads decimal digits only, after skipping spaces, tabs and line breaks and an optional sign. parseInt's "0x" hexadecimal prefix and the rest of JavaScript's white-space set (vertical tab, form feed, no-break space, the Unicode space separators and the line and paragraph separators) are not modelled.
- Number() parsing in Toast's loose equality, `ToNumber`, covers "", an optional '-' and decimal digits only. It excludes whitespace, '+', exponents, hex and fractions.
- charCodeAt is one character per UTF-16 code unit. Characters beyond the Basic Multilingual Plane are not split.
- Parts of the code that cannot be seen, or are nondeterministic, are parameters:
  - the theme `get` accessor (a function from path to value);
  - the css compiler and the styled-system parser, with its prop-name list;
  - the pseudo-selector table;
  - `useId`'s uuid, useBoolean's focus handlers, `useRect`'s height;
  - tinycolor's `getColor` and `isDark`, and Badge's shadow colour;
  - the random fallback colour and the Math.random pick in `randomFromList`.
- ForwardProp: lodash `memoize` is modelled as a map cache on an object. The style-system prop names (`propNames`) are a parameter; validHTMLProps and the extra names are literal.
- ShouldForwardProp: requires the style-system prop names to contain no regex metacharacters, so that the joined pattern is an anchored alternation of literal names.
- Emotion's deep merge of style objects is modelled as a shallow spread of the top-level keys.
- `omit` from lib/util is not part of this model. It is modelled by `Objects.Omit`, which drops the given keys and keeps order.
- ariaAttr is modelled as `condition ? true : undefined`. Its source is not part of this model.
- Inherited properties are not modelled: an object has only its own keys. `Object.keys` agrees, but `for...in` and the `in` operator also see enumerable and prototype properties. This matters for the `in` tests in pseudoProps and the `__css` interpolation (`"constructor" in pseudoSelectors`, `key in props`) and for safeBind's `groupedFns[key]`, which reads inherited members such as `toString`. Reading characters of a string by index (`v[k]` on a string) is not modelled in `Objects.Member`.
- `Objects.Dict` keeps insertion order for every key. JavaScript's rule that integer-like keys come first, in ascending order, is not modelled.
- isEmptyObject does not distinguish absent keys from keys set to undefined, as in the source's options object.
- useColorModeState is the provider's `colorMode` field. The window's prefers-color-scheme and localStorage are not modelled.
- The window resize listener that drives useBreakpoint is not modelled. The screen width is a parameter.
- The toggle closure captured per render is modelled as the provider's current state.
- InputBase: the theme's style tables (base, readOnly, error, size, variants) are parameters. The element and addon padding tables are literal.
- Badge: the `omit` of badge-only props, and the intent colour shading, are not modelled.
- Avatar:
  - JSX rendering is not modelled;
  - `getValidChildren` is taken as already applied: the children are the element props;
  - `useImage`, the Spinner/NoImage timers and the excess styles are not modelled.
- Toast:
  - rendering, ReachAlert and the message are not modelled;
  - transition styles other than the enter offset are not modelled;
  - `ToastOptions` keeps only the id, position and duration;
  - `useTimeout` is modelled as a TimerElapsed event that has an effect only while a delay is set. There is no clock.
- Toast.FindToastIndex: the source's `position ?` test treats an empty-string position key as not found. The model counts it as found. The ToastPosition type rules out that key.
- lib/useToast.tsx and the toast store's add/remove operations are not part of this model.
- JSX and `cloneElement` are modelled as the props dictionaries they produce.

## Findings

| source | as written | input that shows it | evidently intended | confidence | as-written member | corrected member |
|---|---|---|---|---|---|---|
| lib/FormControl.tsx:75 | `idProp \|\| uuid ? \`field-${uuid}\` : undefined` parses as `(idProp \|\| uuid) ? …`, so a given id is never used | idProp 'email', uuid 7 gives 'field-7' | `idProp \|\| (uuid ? \`field-${uuid}\` : undefined)`, giving 'email' | not executed | FormControl.FieldIdIgnoresIdProp | FormControl.FieldId |
| lib/system/providers.ts:65-66 | `getBreakpoints(breakpoints)` is handed `theme.breakpoints` and then reads its `.breakpoints`, which is undefined, so the default widths always decide | theme breakpoints 100px, 200px, 300px, 400px with a 700px screen gives 'sm' | the theme's widths decide, giving 'xl' | not executed | Providers.UseBreakpointCounterexample | Providers.UseBreakpoint |
| lib/Avatar.tsx:422 | the excess label renders `max != null && len - max` | 2 children with max 4 label '+-2'; 4 children with max 4 render the text '0'; max 0 keeps all 3 yet labels '+3' | a '+n' label only when n > 0 children are hidden | not executed | Avatar.ExcessAsWrittenCounterexamples | Avatar.Excess |
| lib/Toast.tsx:239-247 | isVisible overwrites `found` for each position, so only the last position list decides | a toast in 'top' while the last position's list is empty reads as not visible | visible when any position holds the toast | not executed | Toast.IsVisibleMissesEarlierPositions | Toast.IsVisibleAnywhere |

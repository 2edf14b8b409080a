# Passphrase generator: a Dafny model

This project models the passphrase generator page of the `rts.website` web
application (`src/pages/home.rs`). The page records the time it loaded, fetches
a word list, and measures how long the fetch took. When the button is pressed it
records the press time and builds a seed text from the three timings. The text
is hashed, and the hash seeds a pseudo-random generator. The generator then picks:

- a digit, placed in one of three filler slots by shuffling `["", "", digit]`;
- a separator character from a fixed set of 24;
- three words, with replacement, from the word list minus its first 33 entries;
- the one word position to upper-case.

The passphrase is `word0 filler0 sep word1 filler1 sep word2 filler2`.

Modules, one per concern:

- `text.dfy` (`Text`): how a whole-millisecond timestamp prints and parses back;
  the line split of the fetched body; upper-casing.
- `shuffle.dfy` (`Shuffle`): the shuffle of the filler list as a backward
  Fisher–Yates pass. It has a pure definition and an in-place method on an array.
- `passphrase.dfy` (`Passphrase`): the seed text, the range of each random draw,
  the assembly as a function (`Pick`, `Assemble`) and as a step-by-step method
  (`BuildPasswd`), and the template (`Conforms`) that every passphrase meets.
- `home.dfy` (`Home`): the component's state as a class `PasswdGen` with the
  source's optional fields. It has its constructor and the three state-changing
  messages.

Timestamps are modelled as integers. The browser clock reports whole
milliseconds, and subtracting two such values is exact in `f64` at these
magnitudes. Rust prints a whole-valued `f64` with no fractional part, so a
timestamp's text is its decimal rendering (`Text.Decimal`).

The hash, the generator's seeding and its draws are one parameter,
`stream: string -> seq<nat>`. It maps the seed text to the draws, in the order
the code asks for them: digit, the two shuffle partners, separator, word 0,
word 1, word 2, upper-case position. `Passphrase.WellRanged` states each draw's
range.

Facts about the code that the model keeps:

- Generating unwraps the press time, load time and fetch delay
  (src/pages/home.rs:84-86), slices the word list at 33 (line 91) and unwraps
  each word choice (lines 94-96). `CreatePasswd` therefore requires these to be
  present and more than 33 lines, through `CanGenerate`; see "## Left out".
- The template appends `filler2` after the third word (line 107), and `Render`
  does the same.
- The three timings are printed and joined with no delimiter (line 83).
  Changing one timing always changes the seed (`SeedSensitive`). Changing two
  can leave it as it was (`SeedAmbiguous`: `Seed(1, 23, 0) == Seed(12, 3, 0)`).
- The load time is recorded when the component is created (lines 42-47), so
  there is no state before it.

## Model

| member | source | states |
|---|---|---|
| `Text.DigitChar` | src/pages/home.rs:89 | the character of a draw in [0, 10) is a decimal digit whose value is the draw |
| `Text.NatText` | src/pages/home.rs:83-86 | a timestamp's printed magnitude is non-empty and all digits, with a leading zero only for zero |
| `Text.Decimal` | src/pages/home.rs:83-86 | a timestamp prints as a non-empty text that starts with a minus sign exactly when it is negative; `DecimalRoundTrip` shows the text determines the timestamp |
| `Text.DecimalRoundTrip` | src/pages/home.rs:83-86 | parsing a printed timestamp gives the timestamp back |
| `Text.DecimalInjective` | src/pages/home.rs:83-86 | two different timestamps never print alike |
| `Text.DigitCharValue` | src/pages/home.rs:89 | a digit character is the character of its own value |
| `Text.Upper` | src/pages/home.rs:98 | upper-casing keeps the length, leaves no lower-case letter, turns each lower-case letter into its capital and keeps every other character |
| `Text.NewlineIndex` | src/pages/home.rs:119-121 | the index found is the first line feed, or the length when there is none |
| `Text.Lines` | src/pages/home.rs:119-121 | no line of the split body contains a line feed |
| `Text.NewlineIndexAfter` | src/pages/home.rs:119-121 | in a line, a line feed, then more text, the first line feed comes right after the line |
| `Text.LinesOfTerminated` | src/pages/home.rs:119-121 | splitting text written one line per row gives back those lines |
| `Text.LinesOfTerminatedCRLF` | src/pages/home.rs:119-121 | splitting text written one line per row with "\r\n" endings gives back those lines, carriage returns dropped |
| `Text.TerminatedLines` | src/pages/home.rs:119-121 | writing the lines back one per row gives the body, plus a final line feed if it had none |
| `Shuffle.FisherYates` | src/pages/home.rs:90 | the backward pass swapping positions i down to 1 with their partners keeps the length; `FisherYatesPermutes` shows it only rearranges |
| `Shuffle.Shuffled` | src/pages/home.rs:90 | the shuffle of a whole list keeps its length; `ShuffledPermutes` shows it is a permutation and `ShuffledThree` gives its two swaps on three elements |
| `Shuffle.FisherYatesPermutes` | src/pages/home.rs:90 | the swap pass rearranges the list without changing its elements, whatever the swap partners |
| `Shuffle.ShuffledPermutes` | src/pages/home.rs:90 | the shuffled list is a permutation of the original |
| `Shuffle.ShuffledThree` | src/pages/home.rs:90 | on three elements the shuffle swaps position 2, then position 1, with partners below 3 and 2 |
| `Shuffle.ShuffleInPlace` | src/pages/home.rs:90 | the array, shuffled in place, holds the shuffle of its old contents |
| `Passphrase.Seed` | src/pages/home.rs:83-86 | the seed text of press time, load time and fetch delay has at least three characters, all digits when no timing is negative; `SeedSensitive` and `SeedAmbiguous` say when it tells timings apart |
| `Passphrase.JoinCancel` | src/pages/home.rs:83-86 | in three texts joined together, fixing two determines the third |
| `Passphrase.SeedSensitive` | src/pages/home.rs:83-86 | the seed is press time, load time and fetch delay in that order; changing any one of them changes the seed |
| `Passphrase.SeedAmbiguous` | src/pages/home.rs:83-86 | the texts are joined with no delimiter, so changing two timings can leave the seed as it was |
| `Passphrase.DigitText` | src/pages/home.rs:89 | the drawn digit's text is exactly one digit character |
| `Passphrase.Pick` | src/pages/home.rs:89-98 | the draws choose three words, three fillers and a separator from the fixed set; `PickFillers` and `PickWords` say which |
| `Passphrase.Render` | src/pages/home.rs:99-108 | the template is as long as its words and fillers plus two separators, and the separator follows the first word and its filler |
| `Passphrase.Assemble` | src/pages/home.rs:88-108 | the passphrase is as long as the three drawn words together plus 3: two separators and one digit; `AssembleConforms` and `ConformingIsAssembled` show its outputs are exactly the template |
| `Passphrase.PickFillers` | src/pages/home.rs:89-90 | the fillers are a permutation of `["", "", digit]` from the first draw; exactly one holds the digit and the other two are empty |
| `Passphrase.PickWords` | src/pages/home.rs:91-98 | the separator is in the fixed set; each word is the entry at 33 plus its draw; exactly the word at the last draw's position is upper-cased, the others are unchanged |
| `Passphrase.BuildPasswd` | src/pages/home.rs:88-108 | shuffling in place, drawing, upper-casing in place and filling the template gives the passphrase `Assemble` specifies |
| `Passphrase.ShuffledFillers` | src/pages/home.rs:89-90 | every shuffle of `["", "", digit]` leaves the digit in exactly one slot and the others empty |
| `Passphrase.AssembleConforms` | src/pages/home.rs:89-108 | every assembled passphrase fits the template: three words from past the reserved prefix, exactly one upper-cased; one digit filler and two empty ones; the same separator between consecutive words and none after the last |
| `Passphrase.ConformingIsAssembled` | src/pages/home.rs:89-108 | every passphrase that fits the template is assembled by some in-range draws, so the template is exactly the output space |
| `Passphrase.FillersAt` | src/pages/home.rs:90 | partners `[q, 1]` move the digit into slot q |
| `Passphrase.FillersReached` | src/pages/home.rs:89-90 | draws with the digit of slot q and partners `[q, 1]` reproduce a given filler list |
| `Passphrase.WordsReached` | src/pages/home.rs:93-98 | word draws selecting given entries reproduce them, with the chosen one upper-cased |
| `Passphrase.DrawsFor` | src/pages/home.rs:89-98 | for any pieces the template admits, there are in-range draws that pick exactly those pieces |
| `Passphrase.ReservedUnused` | src/pages/home.rs:91 | word-list entries 0 to 32 have no influence on the passphrase |
| `Home.PasswdGen.constructor` | src/pages/home.rs:41-56 | on creation only the load time is known; nothing else is set and generation is not yet possible |
| `Home.PasswdGen.CreatePasswd` | src/pages/home.rs:75-110 | needs load time, fetch delay and more than 33 words; it sets the press time and the passphrase built from the seed (press, load, delay); the rest stays unchanged, the invariant holds and it re-renders |
| `Home.PasswdGen.GetWordsSuccess` | src/pages/home.rs:111-123 | sets the fetch delay to now minus the load time and the words to the body's lines; generation becomes possible exactly when there are more than 33 lines; it re-renders |
| `Home.PasswdGen.GetWordsError` | src/pages/home.rs:124-129 | changes nothing and does not re-render |
| `Home.Session` | src/pages/home.rs:41-122 | load at 100, words at 150, press at 200: the seed text is "20010050" and the passphrase fits the template |

## Left out

- `Home.PasswdGen.CreatePasswd`: the code panics when the button is pressed before the words arrive or with 33 or fewer lines (src/pages/home.rs:84-86, 91, 94-96). The model takes these cases as preconditions through `CanGenerate` and does not model the panic.
- Keccak-512 and its hex encoding (src/pages/home.rs:83-86) are a foreign library. Together with the generator's seeding, they are folded into the `stream` parameter, which maps the seed text to the draws.
- The generator `Pcg64`, its seeding from the hash text, and the algorithms of `gen_range` and `choose` (src/pages/home.rs:88-97) are a third-party PRNG. The model does not say how many raw outputs a draw consumes; choosing from a `chars()` iterator may take several. Each draw is one value in its range, and golden outputs are not reproduced.
- `Shuffle.ShuffleInPlace`: the shuffle's swap partners come from the draws. The model does not prove they match the library's exact sequence. The pass has the form of `SliceRandom::shuffle`: positions from last to second, each swapped with a partner at or below it.
- `f64` arithmetic and `Display` formatting (src/pages/home.rs:83-86, 116): timestamps are whole milliseconds as `int`. Fractional or non-finite times are not modelled.
- `Text.Upper`: upper-cases ASCII letters only. Rust's `to_uppercase` also maps other Unicode letters and can lengthen a word (for example `ß` becomes `SS`).
- `Text.Lines`: follows current Rust `str::lines`, where a lone `\r` at the very end is kept. Older Rust versions removed it. Both split on `\n` and drop the `\r` of `\r\n`.
- `StartFetch`, `FetchService`, the `task` field and the component link (src/pages/home.rs:24-28, 60-74) are network plumbing. The fetch outcome enters the model as a `GetWordsSuccess` or `GetWordsError` call.
- The clock reads (`js_sys::Date`, src/pages/home.rs:42, 76, 114) are the `now` parameters.
- `view`, `change` and the `println!` logging (src/pages/home.rs:113, 127, 133-156) are UI and console output. `PasswdGen.Valid` records that a shown passphrase always comes with the press time and fetch delay the view unwraps beside it.
- `src/lib.rs` only mounts the component (`run_app`) and has no logic.

# Coursework core: Snake frame step, builtin helpers, phone-book controller

This project models three pieces of a coursework repository and proves properties of them in Dafny.

- **`snake.dfy`, module `SnakeGame`**: the main loop of the Snake game (`lab8/snake/snake.py`).
  - The game's module-level variables become the fields of the class `Game`, whose method `Tick` runs one pass of the loop.
  - `Tick` is proved equal to a pure frame function `Step`.
  - `Step` polls events, applies the no-reversal turn and moves the head one 10-pixel cell. It grows or shifts the body, scores and redraws the fruit, ends the game on a wall or self collision, and raises level and speed at every 30 points.
  - An invariant `Inv` is proved to hold from the initial state across any number of frames. It ties body length to score, level and speed to score, keeps the head on the grid and the fruit on the cells `randrange` can produce, and keeps a running game collision-free.
- **`builtin_functions.dfy`, module `BuiltinFunctions`**: `multiply_list`, `count_case`, `is_palindrome` and `all_true` from `Lab6/builtin-functions.py`. Each gets an independent characterisation and the example outputs printed beside it.
- **`phone_book.dfy`, module `PhoneBook`**: the controller of `lab10/phone_book/phone_book.py`, without the database.
  - `update_user` is modelled as a method that builds the `UPDATE` statement and its parameter list. The statement is proved to carry exactly one `%` per parameter, each starting a `%s` placeholder, with each value paired with its column.
  - The `main` menu loop (`RunMenu`) is proved equal to a recursive session function `Session` over the menu-level input lines.

Choice `"1"` is the only menu entry whose handler gets more than the connection: `main` reads a CSV path and passes it to `insert_from_csv` (`lab10/phone_book/phone_book.py:129-131`).

## Model

| member | source | states |
|---|---|---|
| SnakeGame.Turn | lab8/snake/snake.py:125-132 | a requested direction opposite to the current one is ignored; any other request becomes the new direction |
| SnakeGame.Move | lab8/snake/snake.py:135-142 | the head moves exactly one cell (10 px) along the axis of the direction, in its sense; the other coordinate is unchanged |
| SnakeGame.LastArrow | lab8/snake/snake.py:109-118 | the request after the events is the previous one or an arrow key that occurred; with no arrow key it is the previous one |
| SnakeGame.LastArrowIsLast | lab8/snake/snake.py:109-118 | when some event is an arrow key, the request is the key of the last arrow event: no arrow event follows it |
| SnakeGame.Initial | lab8/snake/snake.py:31-67 | the state before the first frame: four segments from (100, 50) leftwards, heading right, score 0, level 1, speed 15, the first fruit draw |
| SnakeGame.Advance | lab8/snake/snake.py:125-159 | the movement half of a frame: turn, move the head, insert it at index 0, then eat (score +10, new fruit) or pop the tail |
| SnakeGame.Settle | lab8/snake/snake.py:171-186 | the checks closing a frame: game over on a wall or self collision, otherwise level and speed rise at level * 30 points |
| SnakeGame.Step | lab8/snake/snake.py:108-186 | one pass of the main loop: Escape quits at once, otherwise Advance with the last requested direction, then Settle |
| SnakeGame.Run | lab8/snake/snake.py:108-194 | the main loop over a sequence of frames, stopping once the game has ended |
| SnakeGame.PollEvents | lab8/snake/snake.py:109-122 | the event loop quits exactly when Escape is among the events; otherwise it leaves the last arrow's direction (or the old request) in `change_to` |
| SnakeGame.HitsSelf | lab8/snake/snake.py:179-181 | the loop over `snake_body[1:]` finds a hit exactly when the head equals a body segment after index 0 |
| SnakeGame.InitialInv | lab8/snake/snake.py:31-67 | the initial state (4 segments at y = 50, heading right, score 0, level 1, speed 15, fruit from `randrange`) satisfies the game invariant |
| SnakeGame.LevelTracksScore | lab8/snake/snake.py:184-186 | with scores in steps of 10 and level = score/30 + 1, one fruit reaches the threshold `level * 30` only by hitting it exactly, and the level test then restores level = score/30 + 1 |
| SnakeGame.StepKeepsInv | lab8/snake/snake.py:108-186 | one frame preserves the invariant: body length 4 + score/10, head = body[0], head on the 10-px grid, fruit on the `randrange` grid, speed = 15 + 5*(level-1), and while running level = score/30 + 1 with the head inside the area and off the body |
| SnakeGame.StepTurns | lab8/snake/snake.py:125-132 | without Escape, the new direction is the last requested one unless it reverses the current direction |
| SnakeGame.StepQuits | lab8/snake/snake.py:120-122 | Escape ends the game at once and nothing else changes |
| SnakeGame.StepMovesHead | lab8/snake/snake.py:135-150 | the head moves one cell along the new direction, becomes body[0], and the rest of the body is the old body, with its tail dropped unless the fruit was eaten |
| SnakeGame.StepGrowth | lab8/snake/snake.py:145-159 | landing on the fruit adds 10 points, grows the body by one and takes the new fruit draw; otherwise score, length and fruit are kept |
| SnakeGame.StepFruitOnGrid | lab8/snake/snake.py:152-157 | the fruit always stays on the cells `randrange(left+10, right, 10) x randrange(top+10, bottom, 10)` produces |
| SnakeGame.StepEndsIff | lab8/snake/snake.py:171-181 | without Escape, a frame ends the game exactly when the new head leaves the play area or lands on a body segment after index 0 |
| SnakeGame.StepLevelUp | lab8/snake/snake.py:184-186 | in a frame that keeps running, reaching `level * 30` raises level by 1 and speed by 5, otherwise both are kept; the level never decreases |
| SnakeGame.RunKeepsInv | lab8/snake/snake.py:108-194 | over any number of frames the invariant holds, given fruit draws on the `randrange` grid |
| SnakeGame.RunMonotone | lab8/snake/snake.py:145-186 | over any number of frames neither the score nor the level decreases |
| SnakeGame.Game.constructor | lab8/snake/snake.py:41-67 | the fields hold the initial state and satisfy the invariant |
| SnakeGame.Game.AdvanceSnake | lab8/snake/snake.py:125-159 | the fields are updated exactly as the movement half of a frame prescribes (turn, move, insert head, eat or pop the tail) |
| SnakeGame.Game.Tick | lab8/snake/snake.py:108-186 | one pass of the main loop updates the fields exactly as `Step` prescribes and keeps the invariant |
| BuiltinFunctions.MultiplyList | Lab6/builtin-functions.py:7-8 | `reduce(mul, lst, 1)` is 1 on the empty list and 0 exactly when some element is 0 |
| BuiltinFunctions.MultiplyListIsProduct | Lab6/builtin-functions.py:7-8 | the left fold equals the right-fold product of all elements |
| BuiltinFunctions.ProductAppend | Lab6/builtin-functions.py:7-8 | the reference product of a concatenation is the product of the two products |
| BuiltinFunctions.MultiplyListAppend | Lab6/builtin-functions.py:7-8 | multiply_list of a concatenation is the product of multiply_list of the parts |
| BuiltinFunctions.MultiplyListExample | Lab6/builtin-functions.py:10 | `multiply_list([1, 2, 3, 4])` is 24; of the empty list it is 1 |
| BuiltinFunctions.CountUpper | Lab6/builtin-functions.py:14 | the upper-case count is at most the length and is 0 exactly when no character is upper-case |
| BuiltinFunctions.CountLower | Lab6/builtin-functions.py:15 | the lower-case count is at most the length and is 0 exactly when no character is lower-case |
| BuiltinFunctions.CaseCountBound | Lab6/builtin-functions.py:13-16 | the two counts add up to at most the length, with equality exactly when every character is a letter |
| BuiltinFunctions.CountCase | Lab6/builtin-functions.py:13-16 | the "Uppercase" entry is the upper-case count and the "Lowercase" entry the lower-case count; together they never exceed the length |
| BuiltinFunctions.CountAppend | Lab6/builtin-functions.py:14-15 | both counts are additive over concatenation |
| BuiltinFunctions.CountCaseExample | Lab6/builtin-functions.py:18 | `count_case("Hello World!")` gives 2 upper-case and 8 lower-case |
| BuiltinFunctions.Lower | Lab6/builtin-functions.py:22 | `lower()`, character by character, mapping 'A'..'Z' to 'a'..'z' |
| BuiltinFunctions.RemoveSpaces | Lab6/builtin-functions.py:22 | `replace(" ", "")` leaves no space, never lengthens the string, and returns a string without spaces unchanged |
| BuiltinFunctions.RemoveSpacesKeepsOthers | Lab6/builtin-functions.py:22 | every character other than a space survives `replace(" ", "")` exactly as often as it occurs |
| BuiltinFunctions.Normalize | Lab6/builtin-functions.py:22 | the string is_palindrome compares: lower-cased, then spaces removed |
| BuiltinFunctions.Reverse | Lab6/builtin-functions.py:23 | the slice `s[::-1]` |
| BuiltinFunctions.IsPalindrome | Lab6/builtin-functions.py:21-23 | the normalised string equals its reverse |
| BuiltinFunctions.RemoveSpacesAppend | Lab6/builtin-functions.py:22 | removing spaces distributes over concatenation |
| BuiltinFunctions.LowerAppend | Lab6/builtin-functions.py:22 | `lower()` distributes over concatenation |
| BuiltinFunctions.PalindromeIffMirrored | Lab6/builtin-functions.py:21-23 | is_palindrome holds exactly when the normalised string has equal characters at mirrored positions |
| BuiltinFunctions.NormalizeDropsSpace | Lab6/builtin-functions.py:22 | normalising drops a space between any two parts |
| BuiltinFunctions.PalindromeIgnoresSpace | Lab6/builtin-functions.py:21-23 | inserting a space anywhere does not change the answer |
| BuiltinFunctions.PalindromeIgnoresCase | Lab6/builtin-functions.py:21-23 | upper- or lower-casing the input does not change the answer |
| BuiltinFunctions.PalindromeMadam | Lab6/builtin-functions.py:25 | "madam" is a palindrome |
| BuiltinFunctions.PalindromeHello | Lab6/builtin-functions.py:26 | "hello" is not a palindrome |
| BuiltinFunctions.AllTrue | Lab6/builtin-functions.py:38-39 | `all(tpl)` holds exactly when every element is true (so also for the empty tuple) |
| BuiltinFunctions.AllTrueExamples | Lab6/builtin-functions.py:41-42 | (True, True, True) gives True, (True, False, True) gives False, () gives True |
| PhoneBook.SetClauses | lab10/phone_book/phone_book.py:62-68 | the SET fragments update_user appends: the name one if a name was given, then the phone one if a phone was given |
| PhoneBook.SetValues | lab10/phone_book/phone_book.py:62-68 | the values appended alongside the fragments, in the same order |
| PhoneBook.UpdateSql | lab10/phone_book/phone_book.py:73 | the f-string: "UPDATE phone_book SET ", the fragments joined by ", ", then " WHERE user_id = %s" |
| PhoneBook.UpdateUser | lab10/phone_book/phone_book.py:56-77 | only the warning is produced exactly when both name and phone are blank; otherwise the statement is prefix + joined fragments + WHERE suffix, the parameters are the given values followed by the id, and the report names the id |
| PhoneBook.SetClausesShape | lab10/phone_book/phone_book.py:62-68 | the name fragment is present exactly when a name was given, the phone fragment exactly when a phone was given, at most two fragments, the name one first |
| PhoneBook.ParamsParallelFields | lab10/phone_book/phone_book.py:62-74 | one more parameter than fragments; each fragment's value sits at the fragment's index; the id is last |
| PhoneBook.UpdateSqlText | lab10/phone_book/phone_book.py:73 | the literal statement text for each of the three non-empty cases |
| PhoneBook.ClausePlaceholders | lab10/phone_book/phone_book.py:64-67 | every SET fragment carries exactly one `%` |
| PhoneBook.SqlOccurrences | lab10/phone_book/phone_book.py:73 | the statement carries the fragments' `%` signs plus one for the user id |
| PhoneBook.PlaceholdersMatchParams | lab10/phone_book/phone_book.py:62-76 | the executed statement holds exactly as many `%` signs as parameters passed; with UpdateSqlText, each of them starts a `%s` placeholder |
| PhoneBook.Options | lab10/phone_book/phone_book.py:110-117 | the options table: keys "1" to "5" with their handlers and descriptions, and "0" for Exit with no handler |
| PhoneBook.Dispatch | lab10/phone_book/phone_book.py:124-135 | the loop exits exactly on "0" and imports from CSV exactly on "1" |
| PhoneBook.DispatchMatchesOptions | lab10/phone_book/phone_book.py:110-135 | a choice is invalid exactly when it is not a key of `options`; a dispatched handler is the one the table lists for that key |
| PhoneBook.Session | lab10/phone_book/phone_book.py:119-135 | the effects and ending of the menu loop over the menu-level input lines; "1" consumes the next line as its path, and running out of lines ends it |
| PhoneBook.RunMenu | lab10/phone_book/phone_book.py:119-135 | the loop over the input lines produces exactly the session's calls, reports and ending |
| PhoneBook.ExitCallsNothing | lab10/phone_book/phone_book.py:124-125 | "0" ends the session at once, with no handler called, whatever follows |
| PhoneBook.InvalidContinues | lab10/phone_book/phone_book.py:126-135 | an unknown choice reports "[ERROR] Invalid option." and the loop goes on with the next line |
| PhoneBook.KnownChoiceCalls | lab10/phone_book/phone_book.py:126-133 | "1" reads the next line as the path and passes it to the import; other keys call their table handler with the connection only |
| PhoneBook.SessionEffects | lab10/phone_book/phone_book.py:119-135 | in any session, only the CSV import gets a path, each line yields at most one effect, and every message is the invalid-option report |

## Left out

- Drawing, fonts, the window, the frame clock (`fps.tick`) and `time.sleep` in the Snake game are output and timing only, and are not modelled. The speed is kept as state, but nothing waits on it.
- The random fruit draw (`random.randrange`) is an input `spawn` to each frame, restricted to the cells `randrange` can return. The generator itself is not modelled.
- Snake: `pygame.quit()` and `quit()` end the process. They are modelled as the statuses `Quit` (Escape) and `GameOver` (`game_over()`), after which no further frame runs. Events after an Escape in the same poll are never looked at, as in the source.
- Snake: `pygame` event types other than key-down, and keys other than the arrows and Escape, are folded into one ignored `Other` event.
- BuiltinFunctions.CountUpper: `str.isupper` is modelled on ASCII 'A'..'Z' only. Non-ASCII upper-case letters are not counted. Dafny has no Unicode case tables.
- BuiltinFunctions.CountLower: `str.islower` is modelled on ASCII 'a'..'z' only, for the same reason.
- BuiltinFunctions.IsPalindrome: `str.lower` is modelled on ASCII letters only. Unicode case mappings (including ones that change length) are not modelled.
- BuiltinFunctions.MultiplyList: modelled on unbounded integers. Python's `reduce` would also accept floats and other numeric types.
- BuiltinFunctions.AllTrue: modelled on booleans. Python's `all` also accepts other values by their truthiness.
- `delayed_sqrt` (Lab6/builtin-functions.py:29-31) is left out: it sleeps and returns a floating-point square root.
- PhoneBook: the database is not modelled. That covers `connect_db`, `create_table`, the cursor and statement execution, `insert_from_csv`, `insert_user`, `delete_user` and `query_users`. The model produces `update_user`'s statement and parameters but does not run them. The menu records which handler would be called, not what it does.
- PhoneBook.RunMenu: the handlers' own `input()` prompts read from the same console. The model's input lines are the menu-level lines only: choices, and the CSV path after "1".
- PhoneBook.RunMenu: an exception raised inside a handler ends the loop through the outer `except`. The model has no such failure. End of input is the only abnormal ending (`InputExhausted`).
- PhoneBook.RunMenu: the menu text printed on every iteration is output only, and is not modelled.
- PhoneBook.UpdateUser: Python treats any non-empty string as a given answer. The model does the same, so a name of only spaces is "given".
- Other versions of the phone book (`lab10/phone_book/phone_book_1.py`, `lab11/phone_book_v2.0.1.py`), the other lab scripts and the other games are not part of this model.

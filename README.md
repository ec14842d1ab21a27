# magephi: the Emakina Docker environment and the `install` command

magephi is a command-line tool that installs and drives a Magento 2 project in Docker, using the
Emakina `docker-magento2` environment. This project models three parts of it:

- The Emakina environment (`Emakina.php`), with:
  - the working directory it settles on
  - the `.env` variables it reads and writes
  - the compose-file counts it caches
  - the PHP, MySQL, Elasticsearch and Redis images it locates or lets the user pick
  - the `server_name` of `nginx.conf`
  - how `build`, `start`, `stop` and `uninstall` turn a process result into a result or an exception
- The `Make` helper (`Make.php`), with:
  - the command, timeout and progress total of each `make` target
  - the line matchers that advance the progress bar
  - the decision that resumes or creates the Mutagen synchronisation session
- The `install` command (`InstallCommand.php`), with:
  - preparing the local `.env`: choosing the PHP image among the Dockerfile's stages, then configuring the image-type and MySQL sections
  - choosing the server name
  - adding the host to `/etc/hosts`
  - starting the containers
  - the exit status and the closing messages

Files are modelled as the text they hold. The PCRE patterns the code uses are written out by hand
(`text.dfy`, `pattern.dfy`, `section.dfy`, `nginx.dfy`, `compose.dfy`, `hosts.dfy`, `install.dfy`):
- `\w` and `\s`
- greedy runs
- the leftmost match first, with no overlap
- `^` in multiline mode
- the `i` flag
- PHP's replacement templates (`template.dfy`)

State the PHP objects update in place lives in classes: `EmakinaEnv.Emakina` and
`Install.InstallCommand`. Their methods state the new state in terms of specification functions,
and the properties are proved about those functions. Three `preg_replace` templates in the source
lose the key for some values (see Findings below). The class methods write the intended rewrite,
and the template as written is modelled beside it and compared with it. The section Left out names each
method this concerns. The following become parameters:
- prompt answers
- the current directory
- the configured environments
- the tags DockerHub returns for an image
- the results of external processes

## Model

| member | source | states |
|---|---|---|
| EmakinaEnv.SelectWorkingDir | src/Entity/Environment/Emakina.php:73-81 | the working directory is the first configured environment that is a prefix of the current directory, or the current directory when none is |
| EmakinaEnv.Emakina.constructor | src/Entity/Environment/Emakina.php:57-91 | the working directory is selected as above; the files are the given ones; nothing is loaded or cached yet and the cache invariant holds |
| EmakinaEnv.Emakina.Create | src/Entity/Environment/Emakina.php:57-104 | construction then `autoLocate`: an empty or missing `.env` leaves the PHP image unset; without error the PHP image is the value `getVariableValue` reads from the compose and `.env` texts |
| EmakinaEnv.Emakina.AutoLocate | src/Entity/Environment/Emakina.php:96-104 | an empty `.env` (PHP `empty`) locates nothing and changes no image; otherwise, without error, each of the four images holds the value read for its variable |
| EmakinaEnv.Emakina.LocateImages | src/Entity/Environment/Emakina.php:98-103 | the four reads in order; the texts are unchanged and, without error, every image field is the value read for it |
| EmakinaEnv.Emakina.LocatePair | src/Entity/Environment/Emakina.php:98-103 | two consecutive reads of `autoLocate`; the first failure stops the reading; without error both fields hold the values read |
| EmakinaEnv.Emakina.ReadImage | src/Entity/Environment/Emakina.php:437-449 | one image read leaves the compose and `.env` texts as they were seen and, on success, returns the value `getVariableValue` defines |
| EmakinaEnv.StripTrailingSlashes | src/Entity/Environment/Emakina.php:406 | the result is a prefix of the path, does not end in `/`, and only slashes were removed |
| EmakinaEnv.BasenameIsLastComponent | src/Entity/Environment/Emakina.php:406 | `basename` gives a slash-free suffix of the path without its trailing slashes, preceded by a slash unless it is the whole path |
| EmakinaEnv.Emakina.WorkingDir | src/Entity/Environment/Emakina.php:404-407 | `getWorkingDir(true)` is the whole directory; otherwise its last component |
| EmakinaEnv.BaseVariables | src/Entity/Environment/Emakina.php:121-125 | exactly the three variables `COMPOSE_FILE`, `COMPOSE_PROJECT_NAME` and `PROJECT_LOCATION`, with their values |
| EmakinaEnv.WithImages | src/Entity/Environment/Emakina.php:127-138 | the four image variables are added and every other variable is kept |
| EmakinaEnv.RequiredVariables | src/Entity/Environment/Emakina.php:119-141 | error exactly when the PHP image is set and another image is not; the keys are the three base variables, plus the four image variables when the PHP image is set; each value is what the source assigns |
| EmakinaEnv.Emakina.DockerRequiredVariables | src/Entity/Environment/Emakina.php:119-141 | an error exactly when the PHP image is set and another image is not; the keys are the three base variables, plus the four image variables once the PHP image is set |
| EmakinaEnv.Emakina.LocalEnvData | src/Entity/Environment/Emakina.php:157-168 | the `.env` text is loaded once and then reused; a missing file gives the empty string |
| EmakinaEnv.Emakina.GetEnvData | src/Entity/Environment/Emakina.php:173-179 | the value is `EnvData` of the loaded text |
| EnvFile.EnvData | src/Entity/Environment/Emakina.php:173-179 | a word-character value; empty exactly when `NAME=` (name upper-cased) has no word value anywhere |
| EnvFile.EnvDataIgnoresNameCase | src/Entity/Environment/Emakina.php:176 | the name is upper-cased first, so its case does not matter |
| EmakinaEnv.Emakina.DockerComposeContent | src/Entity/Environment/Emakina.php:216-229 | the compose text is read once and cached; a missing file is a `FileNotFoundException` |
| EmakinaEnv.Emakina.GetContainers | src/Entity/Environment/Emakina.php:200-211 | the cached count is returned unchanged; otherwise the service lines are counted and cached; the cache invariant is kept |
| EmakinaEnv.Emakina.GetVolumes | src/Entity/Environment/Emakina.php:239-250 | the same for named volumes without options |
| Compose.Count | src/Entity/Environment/Emakina.php:206 | no more matches than lines |
| Compose.Containers | src/Entity/Environment/Emakina.php:200-211 | no more containers than lines |
| Compose.Volumes | src/Entity/Environment/Emakina.php:239-250 | no more volumes than lines |
| Compose.KindsDisjoint | src/Entity/Environment/Emakina.php:200-250 | no line is both a service line and a volume line |
| Compose.CountsBounded | src/Entity/Environment/Emakina.php:200-250 | services plus volumes never exceed the number of lines |
| Compose.ContainersAndVolumesBounded | src/Entity/Environment/Emakina.php:200-250 | the same for the two counts of a compose text |
| Compose.CountAppend | src/Entity/Environment/Emakina.php:200-250 | counting over two runs of lines is the sum of the counts |
| Compose.LinesOfJoin | src/Entity/Environment/Emakina.php:200-250 | a match cannot cross a line feed: the lines of `a\nb` are those of `a`, then those of `b` |
| Compose.CountsOfJoin | src/Entity/Environment/Emakina.php:200-250 | both counts of `a\nb` are the sums of the counts of `a` and `b` |
| Compose.ShapedLineAlone | src/Entity/Environment/Emakina.php:200-250 | a line of either shape holds no line feed |
| Compose.OneService | src/Entity/Environment/Emakina.php:206 | a service line counts as one container and no volume |
| Compose.OneVolume | src/Entity/Environment/Emakina.php:245 | a volume line counts as one volume and no container |
| Compose.NoLineFeedOneLine | src/Entity/Environment/Emakina.php:200-250 | a text without a line feed is one line |
| EmakinaEnv.Emakina.IsVariableUsed | src/Entity/Environment/Emakina.php:231-234 | fails when there is no compose file; otherwise says whether the compose file mentions `${VARIABLE}` |
| EnvFile.IsVariableUsed | src/Entity/Environment/Emakina.php:233 | true exactly when `${VARIABLE}` occurs, in any case, somewhere in the compose text |
| EnvFile.IsVariableUsedIgnoresCase | src/Entity/Environment/Emakina.php:233 | the search ignores the case of the compose text |
| EmakinaEnv.Emakina.GetVariableValue | src/Entity/Environment/Emakina.php:437-449 | the result is `VariableValue` of the compose and `.env` texts; the `.env` file is loaded only for a variable the compose file uses |
| EnvFile.VariableValue | src/Entity/Environment/Emakina.php:437-449 | empty for an unused variable; an `EnvironmentException` with the source's message exactly when a used variable has no `VARIABLE=` value; otherwise a non-empty value without spaces |
| EmakinaEnv.Emakina.SetVariableValue | src/Entity/Environment/Emakina.php:557-565 | the `.env` text becomes `SetVariable` of the loaded text; the value is written literally, not expanded as a template (see Left out below) |
| EnvFile.SetThenGet | src/Entity/Environment/Emakina.php:557-565 | after setting a variable that occurs in the text, `getVariableValue` reads the new value back |
| EnvFile.SetThenEnvData | src/Entity/Environment/Emakina.php:557-565 | an upper-case variable set to a word value is read back by `getEnvData` too |
| EnvFile.SetIdempotent | src/Entity/Environment/Emakina.php:557-565 | setting the same value twice is setting it once |
| EnvFile.SetVariable | src/Entity/Environment/Emakina.php:557-565 | every `VARIABLE=` entry gets the new value; a text without `VARIABLE=` is left unchanged; the value is written literally, not expanded as a template (see Left out below) |
| EnvFile.SetVariableTemplate | src/Entity/Environment/Emakina.php:559-560 | the replacement `VARIABLE=value` is copied as it is when it holds no `$` or backslash |
| EmakinaEnv.Reindex | src/Entity/Environment/Emakina.php:532-535 | after the shift loop and the `unset`, the keys are exactly 1..n and key k holds tag k-1 |
| EmakinaEnv.ShiftStep | src/Entity/Environment/Emakina.php:532-534 | one turn of the shift loop keeps the loop invariant |
| EmakinaEnv.ShiftDone | src/Entity/Environment/Emakina.php:535 | once the loop is done, removing key 0 leaves keys 1..n holding the tags in order |
| EmakinaEnv.Emakina.SelectImage | src/Entity/Environment/Emakina.php:527-552 | one tag is taken as it is; with several, key k selects tag k-1 and the default is the first tag; no tag is the `InvalidArgumentException` with the source's message; the chosen image is written to the `.env` text |
| EmakinaEnv.BuildOutcome | src/Entity/Environment/Emakina.php:287-300 | success exactly when the build succeeds; a timeout is a `ProcessException` with the message that suggests `--no-timeout` or `make build`; any other failure is an `EnvironmentException` carrying the error output |
| EmakinaEnv.StopOutcome | src/Entity/Environment/Emakina.php:330-339 | success exactly when the process succeeds; otherwise an `EnvironmentException` carrying the error output |
| EmakinaEnv.UninstallOutcome | src/Entity/Environment/Emakina.php:382-399 | a failed purge returns false with the block `Environment couldn't be uninstall: ` followed by the error output, and only then is there a message; it fails exactly when `stop` on the same result would fail, and carries the same error output |
| EmakinaEnv.StartOutcome | src/Entity/Environment/Emakina.php:305-325 | a non-timeout failure is an `EnvironmentException` and starts no session; on the timeout code, without the synchro container it is the source's `ProcessException`, and it succeeds exactly when the session could be started or resumed and the sync completes; the session then runs exactly when it was running, missing, or paused and the resume took effect; an incomplete sync gives the source's message |
| EmakinaEnv.Emakina.GetServerName | src/Entity/Environment/Emakina.php:271-282 | fails exactly when `nginx.conf` is missing, with an `EnvironmentException`; otherwise the value is `ServerName` of the file's text |
| EmakinaEnv.Emakina.ChooseServerName | src/Entity/Environment/Emakina.php:629-655 | keeping the name returns the current one and changes nothing; a new name is returned and written over every `server_name` in `nginx.conf`; the rename written is the intended one (see Left out below) |
| EmakinaEnv.Emakina.ConfigureEnv | src/Entity/Environment/Emakina.php:572-599 | a `.env` text never loaded is a PHP error; otherwise a warning exactly when the section has no entry at a line start, and the text becomes `Configured` over the entries found; each rewrite is the intended one (see Left out below) |
| EmakinaEnv.Emakina.ConfigureEntries | src/Entity/Environment/Emakina.php:579-597 | the prompt loop: each entry in turn, rewriting the text re-read through `getLocalEnvData` when its answer is new; the result is `Configured`; each rewrite is the intended one (see Left out below) |
| Section.EntryAtSound | src/Entity/Environment/Emakina.php:574-575 | a match starts at the offset, spells `key=value` there, and its key begins with the prefix up to case and has at least one more word character |
| Section.EntryAt | src/Entity/Environment/Emakina.php:574-575 | a match at an offset starts there and has a key longer than the prefix |
| Section.EntryParts | src/Entity/Environment/Emakina.php:574-575 | a match's key and value are the stretches before and after its `=` |
| Section.SpellsEntry | src/Entity/Environment/Emakina.php:574-575 | a key, `=` and value read off consecutive stretches spell `key=value` |
| Section.Scan | src/Entity/Environment/Emakina.php:575 | every match found is a candidate at its position, read off the text there, and the matches are in order without overlap |
| Section.ScanSkip | src/Entity/Environment/Emakina.php:575 | where no match starts, the search moves on by one character |
| Section.ScanTake | src/Entity/Environment/Emakina.php:575 | a match is taken and the search resumes after it |
| Section.ScanEmpty | src/Entity/Environment/Emakina.php:575 | the search finds nothing exactly when no offset can start a match |
| Section.EntriesSound | src/Entity/Environment/Emakina.php:574-575 | every entry found starts at a line start when anchored, has a key that begins with the prefix, and spells `key=value` at its position; entries are in file order without overlap |
| Section.Entries | src/Entity/Environment/Emakina.php:575 | every match found is a match at its own position, and the matches are in order without overlap |
| Section.ConfigureSection | src/Entity/Environment/Emakina.php:572-599 | the prompts for every match of a section, in file order; with no answers given, every default is kept and the text is unchanged (the intended rewrite; see Findings below) |
| Section.Configured | src/Entity/Environment/Emakina.php:579-597 | the text after the prompts for the matches, in order; accepting every default (or giving empty answers) leaves the text unchanged (the intended rewrite; see Findings below) |
| Section.NoEntriesNoChange | src/Entity/Environment/Emakina.php:576-597 | a text without matches gives no entry and is not changed |
| Section.ApplyThenRead | src/Entity/Environment/Emakina.php:584-592 | after a word answer is written, the first `key=` entry reads that answer |
| Section.ApplyIdempotent | src/Entity/Environment/Emakina.php:584-592 | writing the same word answer twice is writing it once |
| Section.Apply | src/Entity/Environment/Emakina.php:584-592 | one prompt: a new, non-empty answer rewrites every `key=` entry; a text without `key=` is left unchanged (the intended rewrite; see Findings below) |
| Section.AnchoredIsUnanchored | src/Entity/Environment/Emakina.php:574 | every entry the anchored Emakina pattern can match, the unanchored install-command pattern can match too |
| Section.AnchoredNeedsLineStart | src/Entity/Environment/Emakina.php:574 | on one line that does not start with the prefix, the anchored search finds nothing |
| Section.EntryAtWhen | src/Entity/Environment/Emakina.php:574-575 | the match at an offset is the prefix, word characters up to the `=`, and the word run after it |
| Section.IndentedEntry | src/Command/Magento/InstallCommand.php:330 | an entry indented by one space is the single match of the unanchored search and is not seen by the anchored one |
| Section.AsWrittenAgrees | src/Entity/Environment/Emakina.php:586 | the template `$1` + answer gives the intended rewrite when the answer does not start with a digit and holds no `$` or backslash |
| Section.DigitAnswerLosesKey | src/Entity/Environment/Emakina.php:586 | as written, an answer starting with a digit replaces `KEY=value` by the answer without its first digit; the corrected rewrite gives `KEY=answer` |
| Section.PortAnswerLosesKey | src/Entity/Environment/Emakina.php:586 | `MYSQL_PORT=3306` answered with `3307` becomes `307` as written, and `MYSQL_PORT=3307` when corrected |
| Pattern.FirstValue | src/Entity/Environment/Emakina.php:443 | the value captured by `preg_match` lies in the value class and is non-empty for a `+` pattern |
| Pattern.FirstValueIsLeftmost | src/Entity/Environment/Emakina.php:443 | no value exactly when no offset matches; otherwise the value comes from the leftmost matching offset |
| Pattern.Rewrite | src/Entity/Environment/Emakina.php:560 | `preg_replace` replaces every match, leftmost first; a text without a match is left unchanged |
| Pattern.RewritePrefix | src/Entity/Environment/Emakina.php:560 | a rewrite keeps the first characters of the text, up to case |
| Pattern.NoMatchTransfers | src/Entity/Environment/Emakina.php:560 | a text that agrees up to case with a non-matching one on the key and the next character does not match either |
| Pattern.NoMatchAfterRewrite | src/Entity/Environment/Emakina.php:560 | where no match starts, the rewrite copies that character and no match starts in the result |
| Pattern.RewriteStep | src/Entity/Environment/Emakina.php:560 | at a match, the replacement is emitted and the rewrite resumes after the match |
| Pattern.RewriteSkip | src/Entity/Environment/Emakina.php:560 | where no match starts, one character is copied |
| Pattern.RewriteAtMatchSplit | src/Entity/Environment/Emakina.php:560 | at a match, a literal replacement writes the key, then the new value, then the rewritten rest |
| Pattern.RestStartsOutside | src/Entity/Environment/Emakina.php:560 | after a match the rewritten rest does not start with a value character |
| Pattern.RewriteAtMatch | src/Entity/Environment/Emakina.php:560 | the first part of a rewrite at a match, and the rest starts outside the value class |
| Pattern.RewriteIdempotent | src/Entity/Environment/Emakina.php:560 | rewriting twice gives the text that rewriting once gives |
| Pattern.IdempotentAtMatch | src/Entity/Environment/Emakina.php:560 | the step of idempotence at a match |
| Pattern.MatchOfWritten | src/Entity/Environment/Emakina.php:560 | a written key and value, followed by a character outside the class, match again with exactly that value |
| Pattern.IdempotentAtSkip | src/Entity/Environment/Emakina.php:560 | the step of idempotence where no match starts |
| Pattern.RewriteThenRead | src/Entity/Environment/Emakina.php:560 | once a text with a match is rewritten, the first value read is the new one |
| Pattern.ReadWritten | src/Entity/Environment/Emakina.php:443 | a key, a non-empty value and a rest that starts outside the class read back that value |
| Pattern.EmitAgrees | src/Entity/Environment/Emakina.php:586 | one match's replacement through the template `$1` + value equals the intended literal replacement |
| Pattern.TemplateAgrees | src/Entity/Environment/Emakina.php:586 | a whole rewrite through the template equals the intended literal rewrite for such values |
| Pattern.DigitValueAtMatch | src/Entity/Environment/Emakina.php:586 | as written, a value starting with a digit makes the rewrite of a match emit the value without its digit and without the key |
| Pattern.DigitTemplateEmits | src/Entity/Environment/Emakina.php:586 | for one match, the template `$1` + digit-led value emits only the value after its first digit |
| Template.Backref | src/Entity/Environment/Emakina.php:586 | a group reference in a template takes at least two characters and names a group below 100 |
| Template.Expand | src/Entity/Environment/Emakina.php:586 | PHP's expansion of a replacement template; a template without `$` or backslash is copied as it is |
| Template.DigitAfterGroupOne | src/Entity/Environment/Emakina.php:586 | `$1` followed by a digit refers to a two-digit group, which does not exist and is replaced by nothing |
| Template.GroupOneThenPlain | src/Entity/Environment/Emakina.php:586 | `$1` followed by a value that neither starts with a digit nor holds `$` or a backslash gives group 1, then the value |
| Nginx.LastSemicolon | src/Entity/Environment/Emakina.php:274 | the offset of the last `;`, and there is none after it |
| Nginx.NameAt | src/Entity/Environment/Emakina.php:274 | `server_name X;` at the start: a name without spaces, followed by `;` |
| Nginx.FirstName | src/Entity/Environment/Emakina.php:274 | the name of the first match holds no spaces |
| Nginx.FirstNameIsLeftmost | src/Entity/Environment/Emakina.php:274 | no name exactly when no offset holds a match; otherwise the name is that of the leftmost match |
| Nginx.ServerName | src/Entity/Environment/Emakina.php:271-282 | the first name, after `https://www.` when complete; with no match PHP's null gives only the prefix |
| Nginx.RenameThenRead | src/Command/Magento/InstallCommand.php:394-411 | after renaming to a name without spaces or `;`, the name read back is the new one |
| Nginx.NameAtWritten | src/Command/Magento/InstallCommand.php:394 | the directive written with a name and `;` reads back that name, whatever follows |
| Nginx.LowerCaseDirectivesTail | src/Command/Magento/InstallCommand.php:394-405 | a directive written in lower case everywhere stays so in every suffix |
| Nginx.RenameThenServerName | src/Entity/Environment/Emakina.php:629-655 | after a rename, `getServerName` gives the new name, prefixed with `https://www.` when complete |
| Nginx.RenameIdempotent | src/Command/Magento/InstallCommand.php:404-411 | renaming twice to the same name is renaming once |
| Nginx.Rename | src/Command/Magento/InstallCommand.php:404-411 | every directive gets the new name; a file without the directive is not changed (the intended rewrite; see Findings below) |
| Nginx.AsWrittenRenameAgrees | src/Command/Magento/InstallCommand.php:405 | as written, a name that does not start with a digit and holds no `$` or backslash is written as intended |
| Nginx.DigitNameLosesDirective | src/Command/Magento/InstallCommand.php:405 | as written, a name starting with a digit replaces `server_name X;` by the name without its first digit, then `;`; the corrected rename writes `server_name name;` |
| Nginx.SampleNameLosesDirective | src/Command/Magento/InstallCommand.php:405 | `server_name magento.local;` renamed to `2shop.local` becomes `shop.local;` as written |
| Hosts.Occurs | src/Command/Magento/InstallCommand.php:362-363 | the host pattern, where `.` is any character but a line feed, matches at some offset at or after the start |
| Hosts.MatchesItself | src/Command/Magento/InstallCommand.php:362-363 | a host pattern matches its own text wherever it appears |
| Hosts.AppendHost | src/Command/Magento/InstallCommand.php:355-374 | the new text is `WithHost`: the two lines are appended exactly when the host is absent and the user confirms; the old text stays a prefix; afterwards the host is found exactly when it was before or the user confirmed |
| Hosts.EntryAddsHost | src/Command/Magento/InstallCommand.php:368-369 | the appended lines contain the host |
| Install.StageOf | src/Command/Magento/InstallCommand.php:251 | no stage exactly when no `FROM … as` match exists on the line; otherwise the name is the word run after the last ` as ` |
| Install.StagesOf | src/Command/Magento/InstallCommand.php:251 | at most one stage per line, each of word characters |
| Install.StagesOfAppend | src/Command/Magento/InstallCommand.php:251 | stages are found line by line, in order |
| Install.Stages | src/Command/Magento/InstallCommand.php:251 | at most one stage per line of the Dockerfile, each made of word characters |
| Install.NoFromNoStage | src/Command/Magento/InstallCommand.php:251 | a line without `FROM ` has no stage |
| Install.ImageType | src/Command/Magento/InstallCommand.php:262-266 | the image type is the suffix of the image after its last `_`, and holds no `_` |
| Install.ImageTypeWithoutUnderscore | src/Command/Magento/InstallCommand.php:262-266 | without `_` the image type is the whole image |
| Install.ImageRewriteThenRead | src/Command/Magento/InstallCommand.php:255-259 | after the image rewrite, the first `DOCKER_PHP_IMAGE=` entry holds the chosen image |
| Install.PreparedEnv | src/Command/Magento/InstallCommand.php:255-273 | the distributed text with the image written in and the sections configured if asked; without the key, with no section configured or no answer given, the distributed text is written back as it is (the intended rewrite; see Findings below) |
| Install.AsWrittenImageAgrees | src/Command/Magento/InstallCommand.php:255 | as written, a stage name that does not start with a digit gives the intended rewrite |
| Install.DigitStageLosesKey | src/Command/Magento/InstallCommand.php:255 | as written, a stage name starting with a digit replaces `DOCKER_PHP_IMAGE=value` by the name without its first digit; the corrected rewrite gives `DOCKER_PHP_IMAGE=name` |
| Install.InstallCommand.constructor | src/Command/Magento/InstallCommand.php:48-60 | the files are the given ones and nothing is loaded yet |
| Install.InstallCommand.ConfigureEnv | src/Command/Magento/InstallCommand.php:328-353 | a warning exactly when the section has no match anywhere in a line; the text becomes `Configured` over the matches; each rewrite is the intended one (see Left out below) |
| Install.InstallCommand.ConfigureEntries | src/Command/Magento/InstallCommand.php:333-350 | the prompt loop: each match in turn rewrites the text when its answer is new; the result is `Configured`; each rewrite is the intended one (see Left out below) |
| Install.InstallCommand.WriteImage | src/Command/Magento/InstallCommand.php:255-273 | the image is handed to the environment, and the text becomes `PreparedEnv` of the text before; the image rewrite is the intended one (see Left out below) |
| Install.InstallCommand.PrepareDockerEnv | src/Command/Magento/InstallCommand.php:224-276 | the exception is `DockerEnvError`: a missing `.env.dist` path, then an unreadable `.env.dist` with no local `.env` (`Local env not found.`), then each missing or unreadable Dockerfile, then fewer than two stages; an unreadable `.env.dist` with a local `.env` goes on with that file; without error the chosen stage is the image, and both the `.env` text and the local file hold `PreparedEnv` of the copied text; on a later error the local file holds the copied text |
| Install.InstallCommand.ChooseServerName | src/Command/Magento/InstallCommand.php:379-415 | the result is `ServerChoice` of the file: a missing or unreadable `nginx.conf` is an exception and changes nothing; otherwise the name is the one typed when the user changes it, else the first name found (also the default taken by an empty answer), and a null name is the PHP error; on a change every directive gets that name, the empty text for a null one (`NginxAfter`); the rename written is the intended one (see Left out below) |
| Install.ServerChoice | src/Command/Magento/InstallCommand.php:379-415 | success exactly when `nginx.conf` can be read and either a name was typed for a change or a first name is found; the value is the typed name, else the first name; the failure with a readable file is the PHP error of a null name |
| Install.InstallCommand.SetupHost | src/Command/Magento/InstallCommand.php:355-374 | an unreadable hosts file is a `FileException`; otherwise the hosts text becomes `WithHost` of the old one, and afterwards the host is found exactly when it was before or the user confirmed |
| Install.InstallCommand.PrepareEnvironment | src/Command/Magento/InstallCommand.php:195-218 | the result is `EnvironmentResult` of the state before, and the new state is `EnvironmentPrepared`: the `.env` is left alone unless there is none or the user overrides it; prepared without error it holds `PreparedEnv` of the copied text with the chosen stage; after an exception in that step the local `.env` holds the copied text once the copy is done (else it is unchanged), the image is unchanged, and `nginx.conf`, its text and the hosts file are untouched; otherwise `nginx.conf` is `NginxAfter`, the hosts file is unchanged on failure and `WithHost` for the chosen name on success |
| Install.InstallCommand.EnvironmentResult | src/Command/Magento/InstallCommand.php:195-218 | success exactly when the `.env` step (if it runs) raises nothing, a server name is chosen (typed, or the first one found) and the hosts file can be read; the value is the typed name when the user changes it and types one, the first name found otherwise |
| Install.InstallCommand.PrepareIfNeeded | src/Command/Magento/InstallCommand.php:204-212 | the `.env` is prepared only when there is none or the user overrides it; the exception is then `DockerEnvError`; without one the `.env` holds `PreparedEnv` of the copied text with the chosen stage; with one the image is unchanged and the local `.env` holds the copied text once the copy is done, else it is unchanged |
| Install.InstallCommand.NameAndHost | src/Command/Magento/InstallCommand.php:214-217 | the result is `ServerChoice`, or the hosts `FileException` when that succeeds but the hosts file is unreadable; `nginx.conf` becomes `NginxAfter` whether or not the hosts step fails; on success the hosts text is `WithHost` for the chosen name; on failure it is unchanged |
| Install.StartContainers | src/Command/Magento/InstallCommand.php:299-319 | the exception is `StartError`: a non-timeout failure throws the error output; on the timeout code, the Mutagen failure, then an incomplete sync; none otherwise |
| Install.Caught | src/Command/Magento/InstallCommand.php:95-101 | an exception ends with the error status, with its message shown when non-empty; a PHP error is not caught |
| Install.ClosingIff | src/Command/Magento/InstallCommand.php:103-123 | the ready message appears exactly when a database was imported and `env.php` exists; the almost-ready message otherwise; one warning for each missing part |
| Install.SummaryReadyIff | src/Command/Magento/InstallCommand.php:103-123 | the same for the command's own messages |
| Install.InstallCommand.Execute | src/Command/Magento/InstallCommand.php:77-126 | a failed prerequisite or dependency check ends as `Caught` of its exception and changes nothing; otherwise the state is `EnvironmentPrepared`, and one case per branch: a failed environment step ends as `Caught`; a failed build exits with the error status and its error output; a failed start or import ends as `Caught`; when every step succeeds the exit is the success status with `Summary` for the chosen server name; a PHP error escapes; success exactly when every step succeeds |
| Make.TargetOf | src/Helper/Make.php:35-109 | every target runs `make` with one argument under a timeout between one and ten minutes; its total counts at least the containers, and for purge and an installing start the volumes and more |
| Make.TotalsRelate | src/Helper/Make.php:35-53 | an installing start waits for the volumes and one more step on top of a plain start, under the same timeout |
| Make.HasIff | src/Helper/Make.php:40-48 | `false !== stripos(…)` is a case-insensitive occurrence anywhere in the line |
| Make.TruthyIff | src/Helper/Make.php:62-64 | `stripos(…)` used as a boolean is an occurrence that is not at the start of the line |
| Make.HasIgnoresCase | src/Helper/Make.php:40-106 | both tests ignore the case of the line |
| Make.CountsIgnoresCase | src/Helper/Make.php:40-106 | every target's matcher ignores the case of the line |
| Make.Counts | src/Helper/Make.php:40-106 | a line only advances a bar when it reports `done`, a network or volume, or a skipped or tagged image |
| Make.BuildSkipsLeadingKeyword | src/Helper/Make.php:62-64 | a build line starting with `tagged` is not counted unless it mentions `skipping` later on |
| Make.PurgeSkipsLeadingDone | src/Helper/Make.php:77-106 | a line starting with `done` that mentions `stopping` advances `make stop` but not `make purge` unless it removes a network or volume |
| Make.StartMutagen | src/Helper/Make.php:115-133 | without the synchro container it is the source's error and nothing is called; a paused session is resumed, whose result is not checked; a missing one is created, and a failed creation is the source's error; at most one call is made; on success the session ends up running exactly when it was running, missing, or paused and the resume took effect |
| Make.After | src/Helper/Make.php:115-133 | the calls only ever bring the session to running, and leave a running session, or one in another state, as it is |
| Text.FindCIFrom | src/Helper/Make.php:40-106 | `stripos` gives the first case-insensitive occurrence at or after the offset, or none when there is none |
| Text.FindCI | src/Helper/Make.php:40-48 | `stripos` gives the first case-insensitive occurrence, or none when there is none |
| Text.FindFrom | src/Command/Magento/InstallCommand.php:251 | the first exact occurrence at or after an offset, or none when there is none |
| Text.LastBefore | src/Command/Magento/InstallCommand.php:251 | the last exact occurrence before an offset, or none when there is none |
| Text.FindCIFromIgnoresCase | src/Helper/Make.php:40-106 | the search ignores the case of the text |
| Text.AfterLast | src/Command/Magento/InstallCommand.php:262-266 | the part after the last separator: a suffix without the separator, preceded by it unless it is the whole text |
| Text.Run | src/Entity/Environment/Emakina.php:443 | the greedy run of class characters at the start of a text |
| Text.RunOfConcat | src/Entity/Environment/Emakina.php:443 | a run stops where the class ends, even with more text after it |
| Text.Lines | src/Entity/Environment/Emakina.php:200-250 | the lines hold no line feed |
| Text.JoinLines | src/Entity/Environment/Emakina.php:200-250 | joining the lines with line feeds gives the text back |

## Left out

- I/O is not modelled. Files are fields holding their text (`None` or `NoPath` when missing). The following are not modelled: `file_put_contents`, the `getcwd`/`chdir` calls, the output styling and the progress-bar runner.
- These external results become inputs: `ProcessResult` values, whether the synchro container is up, the session state, whether the sync completes (`monitorUntilSynced`), and the DockerHub tag list.
- `Emakina::install`, `prepareEnvironment`, `prepareDockerEnv` and `setupHost` are outside the modelled core, and they differ from the install command's steps of the same names, which `Install` models: `Emakina::prepareDockerEnv` picks the PHP, MySQL and Elasticsearch images among DockerHub tags, asks for a Redis image and configures the `blackfire` and `mysql` sections, with no Dockerfile stages; `Emakina::setupHost` appends the entry through `echo … | sudo tee` with a single-quoted `'\n'`. `getDatabase`, `getBackupFiles`, `hasMagentoEnv`, `hasComposeFile`, `getLocalEnv` and `getType` are single reads or fixed values.
- `InstallCommand::checkPrerequisites`, `installDependencies`, `buildContainers` and `importDatabase` only run external tools. They enter `Execute` as their results. The `docker-local-install` run when no `.env.dist` exists is not modelled either; the model takes the file as it is afterwards.
- Symfony's choice prompt re-asks until a valid key is given. `SelectImage` and `PrepareDockerEnv` therefore require an answer that was offered.
- Names interpolated into patterns are matched literally, so regex metacharacters in a variable, prefix or server name are not modelled. The exception is the hosts check, where `.` in `www.` and in the server name matches any character but a line feed.
- A `preg_replace` that fails (a backtracking limit) returns `null`. This case, and the `RegexpException` thrown for it, are not modelled.
- `mb_strtolower`, `strtoupper` and the `i` flag are modelled on ASCII letters only.
- Install.InstallCommand.Execute: a failed build shows the error output. The two hints printed after it are not among the modelled messages.
- Exit codes are the abstract `CodeSuccess`/`CodeError`. `Kernel::NAME` is the `appName` parameter.
- EmakinaEnv.Emakina.GetServerName: a missing `nginx.conf` path and an unreadable file both give the one `EnvironmentException`. The model has a single "missing" state for both.
- EmakinaEnv.Emakina.LocalEnvData: the exception for an existing `.env` that cannot be read is not modelled. The file is either present with its text or absent.
- Install.InstallCommand.PrepareDockerEnv: a failed `copy` is modelled as the `.env.dist` text being unreadable; the local `.env`, if any, is then read as it was. The image rewrite uses the intended replacement (`KeepKey`), not the template `"$1{$image}"`, so for a stage name that starts with a digit the model keeps `DOCKER_PHP_IMAGE=` where PHP loses it (see `Install.DigitStageLosesKey`).
- Install.InstallCommand.WriteImage: writes the intended image rewrite, not the template `"$1{$image}"`; the two differ for a stage name that starts with a digit or holds `$` or a backslash (`Install.AsWrittenImageAgrees`, `Install.DigitStageLosesKey`).
- Install.InstallCommand.ConfigureEnv: rewrites each entry with the intended replacement, not the template `"$1{$conf}"`; the two differ for an answer that starts with a digit or holds `$` or a backslash (`Section.AsWrittenAgrees`, `Section.DigitAnswerLosesKey`).
- Install.InstallCommand.ConfigureEntries: the same intended replacement as `ConfigureEnv`, with the same difference from the source.
- EnvFile.SetVariable, EmakinaEnv.Emakina.SetVariableValue: write `VARIABLE=value` literally, where the source hands `"{$variable}={$image}"` to `preg_replace` as a template over a pattern whose one group is the whole match; a value holding `$n`, `${n}` or a backslash is expanded there (`A=x` set to `a$1` becomes `A=aA=x`), and the two agree otherwise (`EnvFile.SetVariableTemplate`). A valid Docker image name holds neither `$` nor a backslash; a typed one that does (the Redis image prompt) is written literally by the model.
- Install.PreparedEnv: writes the image and the section answers with the intended rewrite (`KeepKey`), not the templates `"$1{…}"` the source uses; the two differ for a value that starts with a digit or holds `$` or a backslash (`Install.AsWrittenImageAgrees`, `Install.DigitStageLosesKey`, `Section.AsWrittenAgrees`, `Section.DigitAnswerLosesKey`).
- Section.Apply, Section.Configured, Section.ConfigureSection: the intended `key=` rewrite, with the same difference from the source's template (`Section.AsWrittenAgrees`, `Section.DigitAnswerLosesKey`).
- Nginx.Rename: the intended rename, with the same difference from `"$1{$serverName};"` (`Nginx.AsWrittenRenameAgrees`, `Nginx.DigitNameLosesDirective`).
- Install.InstallCommand.ChooseServerName: writes the intended rename, not the template `"$1{$serverName};"`; the two differ for a name that starts with a digit or holds `$` or a backslash (`Nginx.AsWrittenRenameAgrees`, `Nginx.DigitNameLosesDirective`).
- EmakinaEnv.Emakina.ChooseServerName: the same intended rename as the install command's, with the same difference from the source.
- EmakinaEnv.Emakina.ConfigureEnv: the same intended replacement as the install command's `ConfigureEnv`, with the same difference from the source.
- EmakinaEnv.Emakina.ConfigureEntries: the same intended replacement, with the same difference from the source.
- Make.After: a `resumeSession` call that does not take effect leaves the session paused; the model does not say what else Mutagen may do then.

## Findings

| source | as written | input that shows it | evidently intended | confidence | as-written member | corrected member |
|---|---|---|---|---|---|---|
| src/Entity/Environment/Emakina.php:586 | replacement `"$1{$conf}"` (the same at `InstallCommand.php` line 340) for `/(KEY)=(\w*)/i` | the entry `MYSQL_PORT=3306` answered with `3307`: `$13` names a group that does not exist, so the entry becomes `307` | `MYSQL_PORT=3307` (key kept, new value written) | not executed | Section.DigitAnswerLosesKey, Section.PortAnswerLosesKey | Section.ApplyThenRead |
| src/Command/Magento/InstallCommand.php:405 | replacement `"$1{$serverName};"` (the same at `Emakina.php` line 646) for `/(server_name )(\S+)/i` | `server_name magento.local;` renamed to `2shop.local` becomes `shop.local;` | `server_name 2shop.local;` | not executed | Nginx.DigitNameLosesDirective, Nginx.SampleNameLosesDirective | Nginx.RenameThenRead |
| src/Command/Magento/InstallCommand.php:255 | replacement `"$1{$image}"` for `/(DOCKER_PHP_IMAGE=)(\w+)/i` | a Dockerfile stage whose name starts with a digit, such as `7_4`: `DOCKER_PHP_IMAGE=x` becomes `_4` | `DOCKER_PHP_IMAGE=7_4` | not executed | Install.DigitStageLosesKey | Install.ImageRewriteThenRead |

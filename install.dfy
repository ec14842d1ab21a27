/**
 * The `install` command: the local `.env` prepared from the distributed one (PHP image chosen
 * among the stages of the PHP Dockerfile, sections configured), the server name chosen in
 * `nginx.conf`, the host added to `/etc/hosts`, the containers started, and the exit status and
 * closing messages. Files are fields holding their text; prompt answers and the results of the
 * steps that run external tools are parameters.
 */
module Install {
  import opened Wrappers
  import opened Text
  import opened Pattern
  import opened Section
  import opened Nginx
  import opened Hosts
  import opened Process
  import EmakinaEnv

  const PhpImageKey := "DOCKER_PHP_IMAGE="

  // The stages of the PHP Dockerfile: `preg_match_all('/FROM .* as (\w*)/m')`.

  /** `FROM ` at `i` and ` as ` at `j` after it, on one line: the pattern can match there. */
  predicate StageMatch(line: string, i: nat, j: nat) {
    At(line, i, "FROM ") && i + 5 <= j && At(line, j, " as ")
  }

  /** No ` as ` after offset `j`. */
  ghost predicate LastAs(line: string, j: nat) {
    forall k :: j < k ==> !At(line, k, " as ")
  }

  /** The word run after the ` as ` at `j`. */
  function NameAfter(line: string, j: nat): string
    requires j + 4 <= |line|
  {
    line[j + 4..][..Run(line[j + 4..], Word)]
  }

  /** The stage name of one line: the match starts at the first `FROM `, `.*` runs on to the
      last ` as `, and the name is the word run after it. */
  function StageOf(line: string): (r: Option<string>)
    ensures r.None? <==> forall i: nat, j: nat :: !StageMatch(line, i, j)
    ensures r.Some? ==> exists i: nat, j: nat :: StageMatch(line, i, j) && LastAs(line, j) && r.value == NameAfter(line, j)
  {
    match FindFrom(line, "FROM ", 0)
    case None => None
    case Some(i) =>
      match LastBefore(line, " as ", |line| + 1)
      case None => None
      case Some(j) =>
        if j < i + 5 then None
        else
          assert StageMatch(line, i, j);
          assert LastAs(line, j) by {
            forall k | j < k ensures !At(line, k, " as ") {
              if k > |line| {
                assert !(k + 4 <= |line|);
              }
            }
          }
          Some(NameAfter(line, j))
  }

  /** The stage names of the lines, in order. */
  function StagesOf(ls: seq<string>): (r: seq<string>)
    ensures |r| <= |ls|
    ensures forall k :: 0 <= k < |r| ==> forall c :: c in r[k] ==> IsWordChar(c)
  {
    if |ls| == 0 then []
    else
      var rest := StagesOf(ls[1..]);
      match StageOf(ls[0])
      case None => rest
      case Some(n) =>
        assert forall c :: c in n ==> IsWordChar(c) by {
          var t := ls[0][LastBefore(ls[0], " as ", |ls[0]| + 1).value + 4..];
          assert n == t[..Run(t, Word)];
        }
        [n] + rest
  }

  /** Every stage of the Dockerfile; a `FROM … as` spans no line feed, so there is at most one
      per line. */
  function Stages(dockerfile: string): (r: seq<string>)
    ensures |r| <= |Lines(dockerfile)|
    ensures forall k :: 0 <= k < |r| ==> forall c :: c in r[k] ==> IsWordChar(c)
  {
    StagesOf(Lines(dockerfile))
  }

  /** Stages are found line by line: a text made of two parts joined by a line feed has the
      stages of the first followed by the stages of the second. */
  lemma {:induction false} StagesOfAppend(a: seq<string>, b: seq<string>)
    ensures StagesOf(a + b) == StagesOf(a) + StagesOf(b)
  {
    if |a| > 0 {
      assert (a + b)[1..] == a[1..] + b;
      StagesOfAppend(a[1..], b);
    } else {
      assert a + b == b;
    }
  }

  /** A line without `FROM ` gives no stage. */
  lemma NoFromNoStage(line: string)
    requires forall i :: 0 <= i ==> !At(line, i, "FROM ")
    ensures StageOf(line).None?
  {
  }

  /** The `imageType`: what follows the last `_` of the image, all of it when there is none. */
  function ImageType(image: string): (r: string)
    ensures '_' !in r && |r| <= |image| && image == image[..|image| - |r|] + r
    ensures |r| < |image| ==> image[|image| - |r| - 1] == '_'
  {
    AfterLast(image, '_')
  }

  lemma ImageTypeWithoutUnderscore(image: string)
    requires '_' !in image
    ensures ImageType(image) == image
  {
  }

  /** The `.env` text `prepareDockerEnv` writes: the distributed text with the PHP image
      rewritten, then the image-type section and the MySQL section configured if asked.
      Without `DOCKER_PHP_IMAGE=`, and with no section configured or no answer given, the
      distributed text is written back as it is. */
  function PreparedEnv(dist: string, image: string, configureType: bool, typeAnswers: seq<string>,
                       configureMysql: bool, mysqlAnswers: seq<string>): (r: string)
    ensures (&& FirstValue(dist, KeyPattern(PhpImageKey, true, WordPlus)).None?
             && (configureType ==> typeAnswers == []) && (configureMysql ==> mysqlAnswers == [])) ==> r == dist
  {
    var withImage := Rewrite(dist, PhpImageKey, WordPlus, KeepKey(image));
    var typed := if configureType then ConfigureSection(withImage, ImageType(image), false, typeAnswers) else withImage;
    if configureMysql then ConfigureSection(typed, "mysql", false, mysqlAnswers) else typed
  }

  /** After the image rewrite the first `DOCKER_PHP_IMAGE=` entry holds the chosen image. */
  lemma ImageRewriteThenRead(dist: string, image: string)
    requires |image| > 0 && forall i :: 0 <= i < |image| ==> IsWordChar(image[i])
    requires FirstValue(dist, KeyPattern(PhpImageKey, true, WordPlus)).Some?
    ensures FirstValue(Rewrite(dist, PhpImageKey, WordPlus, KeepKey(image)), KeyPattern(PhpImageKey, true, WordPlus)) == Some(image)
  {
    RewriteThenRead(dist, PhpImageKey, WordPlus, KeepKey(image), KeyPattern(PhpImageKey, true, WordPlus));
  }

  // The image rewrite as the source writes it: the template `$1`, then the image.

  function AsWrittenImageRewrite(dist: string, image: string): string {
    Rewrite(dist, PhpImageKey, WordPlus, Template("$1" + image))
  }

  /** A stage name that does not start with a digit is written as meant. */
  lemma AsWrittenImageAgrees(dist: string, image: string)
    requires forall i :: 0 <= i < |image| ==> IsWordChar(image[i])
    requires |image| >= 1 ==> !IsDigit(image[0])
    ensures AsWrittenImageRewrite(dist, image) == Rewrite(dist, PhpImageKey, WordPlus, KeepKey(image))
  {
    assert '$' !in image && '\\' !in image by {
      forall c | c in image ensures IsWordChar(c) {
        var i :| 0 <= i < |image| && image[i] == c;
      }
    }
    TemplateAgrees(dist, PhpImageKey, WordPlus, image);
  }

  /** A stage name starting with a digit loses `DOCKER_PHP_IMAGE=` and its own first digit. */
  lemma {:induction false} DigitStageLosesKey(value: string, image: string)
    requires |value| > 0 && forall k :: 0 <= k < |value| ==> IsWordChar(value[k])
    requires |image| >= 1 && IsDigit(image[0]) && forall k :: 0 <= k < |image| ==> IsWordChar(image[k])
    ensures AsWrittenImageRewrite(PhpImageKey + value, image) == image[1..]
    ensures Rewrite(PhpImageKey + value, PhpImageKey, WordPlus, KeepKey(image)) == PhpImageKey + image
  {
    var s := PhpImageKey + value;
    assert s[..|PhpImageKey|] == PhpImageKey && s[|PhpImageKey|..] == value;
    assert MatchesAt(s, KeyPattern(PhpImageKey, true, WordPlus)) && |s| == |PhpImageKey| + Run(s[|PhpImageKey|..], Word) by {
      forall i | 0 <= i < |PhpImageKey| ensures Lower(s[i]) == Lower(PhpImageKey[i]) {
      }
      RunExactly(value, |value|, Word);
    }
    assert s[|s|..] == "";
    assert '$' !in image && '\\' !in image by {
      forall c | c in image ensures IsWordChar(c) {
        var i :| 0 <= i < |image| && image[i] == c;
      }
    }
    assert AsWrittenImageRewrite(s, image) == image[1..] by {
      DigitValueAtMatch(s, PhpImageKey, WordPlus, image);
    }
    assert Rewrite(s, PhpImageKey, WordPlus, KeepKey(image)) == PhpImageKey + image by {
      RewriteAtMatchSplit(s, PhpImageKey, WordPlus, KeepKey(image), |s|);
    }
  }

  const NoChoice := "Choice question must have at least 1 choice available."
  const MissingEnvDist := "env.dist does not exist. Ensure emakinafr/docker-magento2 is present in dependencies."
  const MissingDockerfile := "PHP Dockerfile does not exist. Ensure emakinafr/docker-magento2 is present in dependencies."
  const MissingNginx := "nginx.conf does not exist. Ensure emakinafr/docker-magento2 is present in dependencies."
  const LocalEnvMissing := "Local env not found."
  const DockerfileMissing := "PHP Dockerfile not found."
  const HostsMissing := "/etc/hosts file not found."
  /** The `TypeError` PHP 8 raises when `chooseServerName` returns null. */
  const NullName := "Magephi\\Command\\Magento\\InstallCommand::chooseServerName(): Return value must be of type string, null returned"

  /** The local `.env` once `copy` has run: the distributed text, or, when that cannot be read
      and the copy fails, the file already in place (none when there is none). */
  function CopiedEnv(dist: FileSource, local: Option<string>): Option<string>
    requires !dist.NoPath?
  {
    if dist.Text? then Some(dist.content) else local
  }

  /** The exception `prepareDockerEnv` ends with, if any: each missing or unreadable file in
      turn, then a Dockerfile with fewer than two stages (the first one is not offered). */
  function DockerEnvError(dist: FileSource, local: Option<string>, dockerfile: FileSource): Option<Failure> {
    if dist.NoPath? then Some(Exception(MissingEnvDist))
    else if CopiedEnv(dist, local).None? then Some(FileException(LocalEnvMissing))
    else if dockerfile.NoPath? then Some(Exception(MissingDockerfile))
    else if dockerfile.Unreadable? then Some(FileException(DockerfileMissing))
    else if |Stages(dockerfile.content)| < 2 then Some(LogicException(NoChoice))
    else None
  }

  /** The name `chooseServerName` ends with in `content`: the answer typed when the user
      changes it, else the first name found (the default of the question, taken on an empty
      answer), null (`None`) when there is none. */
  function ChosenName(content: string, change: bool, answer: Option<string>): Option<string> {
    if change && answer.Some? then answer else FirstName(content)
  }

  /** What `chooseServerName` returns for `nginx.conf` at `path`: the name typed when the user
      changes it, else the first name found; a file that is missing or unreadable is an
      exception, and returning a null name from a `string` method is a PHP error. */
  function ServerChoice(conf: FileSource, path: string, change: bool, answer: Option<string>): (r: Result<string, Failure>)
    ensures r.Success? <==> conf.Text? && ((change && answer.Some?) || FirstName(conf.content).Some?)
    ensures r.Success? ==> r.value == if change && answer.Some? then answer.value else FirstName(conf.content).value
    ensures r.Failure? && conf.Text? ==> r == Failure(Error(NullName))
  {
    if conf.NoPath? then Failure(Exception(MissingNginx))
    else if conf.Unreadable? then Failure(Exception("Something went wrong while reading " + path + ", ensure the file is present."))
    else match ChosenName(conf.content, change, answer)
      case None => Failure(Error(NullName))
      case Some(n) => Success(n)
  }

  /** `nginx.conf` after `chooseServerName`: renamed when the user changes the name, a null
      name interpolated as the empty text. */
  function NginxAfter(conf: FileSource, change: bool, answer: Option<string>): FileSource {
    if conf.Text? && change then Text(Rename(conf.content, ChosenName(conf.content, change, answer).GetOr(""))) else conf
  }

  /** The exception `startContainers` ends with, if any. */
  function StartError(p: ProcessResult, mutagen: Option<Failure>, synced: bool): Option<Failure> {
    if !p.successful && p.exit != Timeout then Some(Exception(p.errorOutput))
    else if p.exit == Timeout && mutagen.Some? then mutagen
    else if p.exit == Timeout && !synced then Some(Exception(EmakinaEnv.SyncFailed))
    else None
  }

  /** The prompts of one installation, answered. `stage` is the key picked among the stages
      offered (1 to n-1: the first stage is not offered). `serverName` is `None` for an empty
      answer, which takes the question's default. */
  datatype Answers = Answers(overrideEnv: bool, stage: nat, configureType: bool, typeAnswers: seq<string>,
                             configureMysql: bool, mysqlAnswers: seq<string>,
                             changeServer: bool, serverName: Option<string>, addHost: bool)

  /** `startContainers`: a failure other than the timeout throws the error output; on the
      timeout code the sync session is started (its exception passed through) and a sync that
      does not complete throws. */
  method StartContainers(p: ProcessResult, mutagen: Option<Failure>, synced: bool) returns (err: Option<Failure>)
    ensures p.exit != Timeout ==> (err.None? <==> p.successful)
    ensures !p.successful && p.exit != Timeout ==> err == Some(Exception(p.errorOutput))
    ensures p.exit == Timeout ==> (err.None? <==> mutagen.None? && synced)
    ensures p.exit == Timeout && mutagen.Some? ==> err == mutagen
    ensures p.exit == Timeout && mutagen.None? && !synced ==> err == Some(Exception(EmakinaEnv.SyncFailed))
    ensures err == StartError(p, mutagen, synced)
  {
    if !p.successful && p.exit != Timeout {
      return Some(Exception(p.errorOutput));
    }
    err := None;
    if p.exit == Timeout {
      if mutagen.Some? {
        return mutagen;
      }
      if !synced {
        return Some(Exception(EmakinaEnv.SyncFailed));
      }
    }
  }

  datatype Status = CodeSuccess | CodeError

  /** What the command prints at the end. */
  datatype Note = ErrorNote(text: string) | WarningNote(text: string) | SuccessNote(text: string)

  /** The command's end: an exit status with its closing messages, or a PHP error that
      `catch (Exception)` lets through. */
  datatype Outcome = Exit(status: Status, notes: seq<Note>) | Uncaught(error: Failure)

  const Installed := "Your environment has been " + "successfully installed."
  const NoEnvPhp := "The file app/etc/env.php is missing. " + "Retrieve from another project or install Magento."
  const NoDatabase := "No database has been imported, " + "install Magento or import the database."

  function Ready(server: string): string {
    "Your project is ready, " + "you can access it on https://" + server
  }

  function AlmostReady(server: string): string {
    "Your project is almost ready, " + "it'll will be available on https://" + server
  }

  /** The messages after a successful installation. */
  function Summary(server: string, imported: bool, hasMagentoEnv: bool): seq<Note> {
    Closing(SuccessNote(Installed), SuccessNote(Ready(server)), SuccessNote(AlmostReady(server)),
            WarningNote(NoEnvPhp), WarningNote(NoDatabase), imported, hasMagentoEnv)
  }

  /** The closing messages, whatever their wording. */
  function Closing(done: Note, ready: Note, almost: Note, noEnv: Note, noDb: Note, imported: bool, hasMagentoEnv: bool): seq<Note> {
    [done]
    + if imported && hasMagentoEnv then [ready]
      else (if !hasMagentoEnv then [noEnv] else [])
           + (if !imported then [noDb] else [])
           + [almost]
  }

  lemma ClosingIff(done: Note, ready: Note, almost: Note, noEnv: Note, noDb: Note, imported: bool, hasMagentoEnv: bool)
    requires done != ready && done != almost && ready != almost && noEnv != noDb
    requires noEnv != done && noEnv != ready && noEnv != almost && noDb != done && noDb != ready && noDb != almost
    ensures var out := Closing(done, ready, almost, noEnv, noDb, imported, hasMagentoEnv);
            (ready in out <==> imported && hasMagentoEnv) && (almost in out <==> !(imported && hasMagentoEnv))
            && (noEnv in out <==> !hasMagentoEnv) && (noDb in out <==> !imported)
  {
    var out := Closing(done, ready, almost, noEnv, noDb, imported, hasMagentoEnv);
    if imported && hasMagentoEnv {
      assert out == [done, ready];
    } else if imported {
      assert out == [done, noEnv, almost];
    } else if hasMagentoEnv {
      assert out == [done, noDb, almost];
    } else {
      assert out == [done, noEnv, noDb, almost];
    }
  }

  /** The project is announced ready exactly when a database was imported and `env.php`
      exists; otherwise it is announced almost ready, with a warning for each missing part. */
  lemma SummaryReadyIff(server: string, imported: bool, hasMagentoEnv: bool)
    ensures SuccessNote(Ready(server)) in Summary(server, imported, hasMagentoEnv) <==> imported && hasMagentoEnv
    ensures SuccessNote(AlmostReady(server)) in Summary(server, imported, hasMagentoEnv) <==> !(imported && hasMagentoEnv)
    ensures WarningNote(NoEnvPhp) in Summary(server, imported, hasMagentoEnv) <==> !hasMagentoEnv
    ensures WarningNote(NoDatabase) in Summary(server, imported, hasMagentoEnv) <==> !imported
  {
    assert Ready(server) != AlmostReady(server) by {
      assert Ready(server)[16] == 'r' && AlmostReady(server)[16] == 'a';
    }
    assert Installed != Ready(server) && Installed != AlmostReady(server) by {
      assert Installed[5] == 'e' && Ready(server)[5] == 'p' && AlmostReady(server)[5] == 'p';
    }
    assert NoEnvPhp != NoDatabase by {
      assert NoEnvPhp[0] == 'T' && NoDatabase[0] == 'N';
    }
    ClosingIff(SuccessNote(Installed), SuccessNote(Ready(server)), SuccessNote(AlmostReady(server)),
               WarningNote(NoEnvPhp), WarningNote(NoDatabase), imported, hasMagentoEnv);
  }

  /** An exception ends the command with the error status, its message shown when it has one;
      a PHP error is not caught. */
  function Caught(f: Failure): (o: Outcome)
    ensures o.Exit? <==> IsException(f)
    ensures o.Exit? ==> o.status == CodeError && (o.notes == [] <==> f.msg == "")
    ensures o.Exit? && f.msg != "" ==> o.notes == [ErrorNote(f.msg)]
  {
    if IsException(f) then Exit(CodeError, if f.msg != "" then [ErrorNote(f.msg)] else [])
    else Uncaught(f)
  }

  class InstallCommand {
    /** `Kernel::NAME`, written in the hosts file. */
    const appName: string
    /** The path of `nginx.conf`, as error messages show it. */
    const nginxPath: string
    /** The environment's `.env.dist`, PHP Dockerfile and `nginx.conf`. */
    var distEnv: FileSource
    var phpDockerfile: FileSource
    var nginxConf: FileSource
    /** `docker/local/.env` (`None` while the environment knows of none) and `/etc/hosts`
        (`None` when it cannot be read). */
    var localEnvFile: Option<string>
    var hosts: Option<string>
    var envContent: Option<string>
    var nginxContent: Option<string>
    /** The PHP image handed to the environment. */
    var phpImage: Option<string>

    constructor (appName: string, nginxPath: string, distEnv: FileSource, phpDockerfile: FileSource,
                 nginxConf: FileSource, localEnvFile: Option<string>, hosts: Option<string>)
      ensures this.appName == appName && this.nginxPath == nginxPath
      ensures this.distEnv == distEnv && this.phpDockerfile == phpDockerfile && this.nginxConf == nginxConf
      ensures this.localEnvFile == localEnvFile && this.hosts == hosts
      ensures envContent.None? && nginxContent.None? && phpImage.None?
    {
      this.appName := appName;
      this.nginxPath := nginxPath;
      this.distEnv := distEnv;
      this.phpDockerfile := phpDockerfile;
      this.nginxConf := nginxConf;
      this.localEnvFile := localEnvFile;
      this.hosts := hosts;
      envContent := None;
      nginxContent := None;
      phpImage := None;
    }

    /** The picked stage is one of those offered, whenever some are. */
    predicate ValidChoice(stage: nat)
      reads this
    {
      phpDockerfile.Text? && |Stages(phpDockerfile.content)| >= 2 ==> 1 <= stage < |Stages(phpDockerfile.content)|
    }

    /** The exception of the `.env` step of `prepareEnvironment`: it runs when there is no
        local `.env` yet or the user overrides it. */
    function PrepError(a: Answers): Option<Failure>
      reads this
    {
      if localEnvFile.None? || a.overrideEnv then DockerEnvError(distEnv, localEnvFile, phpDockerfile) else None
    }

    /** What `prepareEnvironment` returns, from the state it starts in: the exception of
        `prepareDockerEnv` when the `.env` is prepared, else the server name chosen, provided
        the hosts file can be read. */
    function EnvironmentResult(a: Answers): (r: Result<string, Failure>)
      reads this
      ensures r.Success? <==>
        && ((localEnvFile.None? || a.overrideEnv) ==> DockerEnvError(distEnv, localEnvFile, phpDockerfile).None?)
        && nginxConf.Text? && ((a.changeServer && a.serverName.Some?) || FirstName(nginxConf.content).Some?) && hosts.Some?
      ensures r.Success? ==>
        r.value == if a.changeServer && a.serverName.Some? then a.serverName.value else FirstName(nginxConf.content).value
    {
      var prepError := PrepError(a);
      if prepError.Some? then Failure(prepError.value)
      else match ServerChoice(nginxConf, nginxPath, a.changeServer, a.serverName)
        case Failure(f) => Failure(f)
        case Success(name) => if hosts.None? then Failure(FileException(HostsMissing)) else Success(name)
    }

    /** `configureEnv` of the install command: the matches of the section anywhere in a line,
        each rewritten in turn when its answer is new; a warning when there is none. A text
        never loaded has no match. */
    method ConfigureEnv(prefix: string, answers: seq<string>) returns (warned: bool)
      modifies this`envContent
      ensures old(envContent).None? ==> warned && envContent.None?
      ensures old(envContent).Some? ==>
              var es := Entries(old(envContent).value, prefix, false);
              && (warned <==> |es| == 0)
              && envContent == Some(Configured(old(envContent).value, es, answers))
    {
      if envContent.None? {
        return true;
      }
      var c := envContent.value;
      var es := Entries(c, prefix, false);
      if |es| == 0 {
        return true;
      }
      warned := false;
      ConfigureEntries(c, es, answers);
    }

    /** The prompts of `configureEnv`, one per match in order, each rewriting the text when its
        answer is new. */
    method ConfigureEntries(c: string, es: seq<Entry>, answers: seq<string>)
      requires envContent == Some(c)
      modifies this`envContent
      ensures envContent == Some(Configured(c, es, answers))
    {
      var k := 0;
      while k < |es|
        invariant 0 <= k <= |es|
        invariant envContent == Some(Configured(c, es[..k], answers))
      {
        var conf := AnswerFor(answers, k, es[k]);
        assert es[..k + 1][..k] == es[..k];
        if conf != "" && conf != es[k].value {
          envContent := Some(Rewrite(envContent.value, es[k].key + "=", WordStar, KeepKey(conf)));
        }
        k := k + 1;
      }
      assert es[..|es|] == es;
    }

    /** The image-dependent part of `prepareDockerEnv`: the image written over every
        `DOCKER_PHP_IMAGE=` entry, then the image type's section and the MySQL section
        configured when asked. */
    method WriteImage(image: string, configureType: bool, typeAnswers: seq<string>,
                      configureMysql: bool, mysqlAnswers: seq<string>)
      requires envContent.Some?
      modifies this`envContent, this`phpImage
      ensures phpImage == Some(image)
      ensures envContent == Some(PreparedEnv(old(envContent).value, image, configureType, typeAnswers, configureMysql, mysqlAnswers))
    {
      envContent := Some(Rewrite(envContent.value, PhpImageKey, WordPlus, KeepKey(image)));
      phpImage := Some(image);
      ghost var withImage := envContent.value;
      var imageType := ImageType(image);
      if configureType {
        var _ := ConfigureEnv(imageType, typeAnswers);
      }
      ghost var typed := if configureType then ConfigureSection(withImage, imageType, false, typeAnswers) else withImage;
      assert envContent == Some(typed);
      if configureMysql {
        var _ := ConfigureEnv("mysql", mysqlAnswers);
      }
    }

    /** `prepareDockerEnv`: the distributed `.env` copied to the local one (a failed copy leaves
        the local file as it was), the PHP image picked among the Dockerfile's stages (the first
        one not offered) and written in, the sections configured if asked, and the result written
        to the local file. */
    method PrepareDockerEnv(stage: nat, configureType: bool, typeAnswers: seq<string>,
                            configureMysql: bool, mysqlAnswers: seq<string>) returns (err: Option<Failure>)
      requires ValidChoice(stage)
      modifies this`envContent, this`phpImage, this`localEnvFile
      ensures err == DockerEnvError(distEnv, old(localEnvFile), phpDockerfile)
      ensures distEnv.NoPath? ==> err == Some(Exception(MissingEnvDist)) && unchanged(this)
      ensures distEnv.Unreadable? && old(localEnvFile).None? ==> err == Some(FileException(LocalEnvMissing)) && unchanged(this)
      ensures !distEnv.NoPath? && CopiedEnv(distEnv, old(localEnvFile)).Some? ==>
        var copied := CopiedEnv(distEnv, old(localEnvFile));
        && (err.Some? ==> localEnvFile == copied && envContent == copied && phpImage == old(phpImage))
        && (phpDockerfile.NoPath? ==> err == Some(Exception(MissingDockerfile)))
        && (phpDockerfile.Unreadable? ==> err == Some(FileException(DockerfileMissing)))
        && (phpDockerfile.Text? && |Stages(phpDockerfile.content)| < 2 ==> err == Some(LogicException(NoChoice)))
        && (phpDockerfile.Text? && |Stages(phpDockerfile.content)| >= 2 ==>
              var image := Stages(phpDockerfile.content)[stage];
              && err.None? && phpImage == Some(image)
              && envContent == Some(PreparedEnv(copied.value, image, configureType, typeAnswers, configureMysql, mysqlAnswers))
              && localEnvFile == envContent)
    {
      if distEnv.NoPath? {
        return Some(Exception(MissingEnvDist));
      }
      var copied := CopiedEnv(distEnv, localEnvFile);
      if copied.None? {
        return Some(FileException(LocalEnvMissing));
      }
      localEnvFile := copied;
      envContent := copied;
      if phpDockerfile.NoPath? {
        return Some(Exception(MissingDockerfile));
      }
      if phpDockerfile.Unreadable? {
        return Some(FileException(DockerfileMissing));
      }
      var stages := Stages(phpDockerfile.content);
      if |stages| < 2 {
        return Some(LogicException(NoChoice));
      }
      var image := stages[stage];
      WriteImage(image, configureType, typeAnswers, configureMysql, mysqlAnswers);
      localEnvFile := envContent;
      err := None;
    }

    /** `chooseServerName`: the first `server_name X;` is the current name and the default
        of the question; a new name is written over every `server_name` token, a null one as
        the empty text. Returning a null name from a `string` method is a PHP error. */
    method ChooseServerName(change: bool, answer: Option<string>) returns (r: Result<string, Failure>)
      modifies this`nginxContent, this`nginxConf
      ensures old(nginxConf).NoPath? ==> r == Failure(Exception(MissingNginx)) && unchanged(this)
      ensures old(nginxConf).Unreadable? ==>
        r == Failure(Exception("Something went wrong while reading " + nginxPath + ", ensure the file is present."))
        && unchanged(this)
      ensures old(nginxConf).Text? ==>
        var name := ChosenName(old(nginxConf).content, change, answer);
        && (r.Success? <==> name.Some?)
        && (r.Success? ==> Some(r.value) == name)
        && (r.Failure? ==> r.error == Error(NullName))
      ensures old(nginxConf).Text? && change ==>
        var renamed := Rename(old(nginxConf).content, ChosenName(old(nginxConf).content, change, answer).GetOr(""));
        nginxContent == Some(renamed) && nginxConf == Text(renamed)
      ensures old(nginxConf).Text? && !change ==>
        nginxContent == Some(old(nginxConf).content) && nginxConf == old(nginxConf)
      ensures r == ServerChoice(old(nginxConf), nginxPath, change, answer)
      ensures nginxConf == NginxAfter(old(nginxConf), change, answer)
    {
      if nginxConf.NoPath? {
        return Failure(Exception(MissingNginx));
      }
      if nginxConf.Unreadable? {
        return Failure(Exception("Something went wrong while reading " + nginxPath + ", ensure the file is present."));
      }
      nginxContent := Some(nginxConf.content);
      var name := FirstName(nginxContent.value);
      if change {
        if answer.Some? {
          name := answer;
        }
        nginxContent := Some(Rename(nginxContent.value, name.GetOr("")));
        nginxConf := Text(nginxContent.value);
      }
      if name.None? {
        return Failure(Error(NullName));
      }
      r := Success(name.value);
    }

    /** `setupHost`: the entry is appended when the host is not found and the user agrees. */
    method SetupHost(serverName: string, confirm: bool) returns (err: Option<Failure>)
      modifies this`hosts
      ensures old(hosts).None? ==> err == Some(FileException(HostsMissing)) && hosts.None?
      ensures old(hosts).Some? ==> err.None? && hosts.Some? && old(hosts).value <= hosts.value
      ensures old(hosts).Some? ==> hosts == Some(WithHost(old(hosts).value, appName, serverName, confirm))
      ensures old(hosts).Some? ==>
        (Occurs(hosts.value, Host(serverName), 0) <==> Occurs(old(hosts).value, Host(serverName), 0) || confirm)
    {
      if hosts.None? {
        return Some(FileException(HostsMissing));
      }
      var newHosts, _ := AppendHost(hosts.value, serverName, appName, confirm);
      hosts := Some(newHosts);
      err := None;
    }

    /** The state `prepareEnvironment` leaves, against the state it starts in. The `.env`
        step, when it runs, leaves the local `.env` prepared, or, after an exception, as far as
        it got: copied once the copy is done, as before otherwise, and the image not set. An
        exception there ends the step with `nginx.conf` and the hosts file untouched; otherwise
        `nginx.conf` is left as `chooseServerName` leaves it, and the hosts file as `setupHost`
        leaves it once a name is chosen. */
    twostate predicate EnvironmentPrepared(a: Answers)
      requires old(ValidChoice(a.stage))
      reads this
    {
      var prepared := old(localEnvFile).None? || a.overrideEnv;
      var err := old(PrepError(a));
      var r := old(EnvironmentResult(a));
      var copied := if old(distEnv).NoPath? then None else CopiedEnv(old(distEnv), old(localEnvFile));
      && (!prepared ==> envContent == old(envContent) && phpImage == old(phpImage) && localEnvFile == old(localEnvFile))
      && (prepared && err.None? ==>
            var image := Stages(old(phpDockerfile).content)[a.stage];
            && phpImage == Some(image) && localEnvFile == envContent
            && envContent == Some(PreparedEnv(copied.value, image, a.configureType,
                                              a.typeAnswers, a.configureMysql, a.mysqlAnswers)))
      && (err.Some? ==> phpImage == old(phpImage))
      && (err.Some? && copied.Some? ==> localEnvFile == copied && envContent == copied)
      && (err.Some? && copied.None? ==> localEnvFile == old(localEnvFile) && envContent == old(envContent))
      && (err.Some? ==> nginxConf == old(nginxConf) && nginxContent == old(nginxContent) && hosts == old(hosts))
      && (err.None? ==> nginxConf == NginxAfter(old(nginxConf), a.changeServer, a.serverName))
      && (err.None? && old(nginxConf).Text? ==> nginxContent == Some(nginxConf.content))
      && (err.None? && !old(nginxConf).Text? ==> nginxContent == old(nginxContent))
      && (r.Failure? ==> hosts == old(hosts))
      && (r.Success? ==> old(hosts).Some? && hosts == Some(WithHost(old(hosts).value, appName, r.value, a.addHost)))
    }

    /** `prepareEnvironment`: the `.env` prepared when there is none yet or the user overrides
        it, then the server name chosen and the host set up. */
    method PrepareEnvironment(a: Answers) returns (r: Result<string, Failure>)
      requires ValidChoice(a.stage)
      modifies this`envContent, this`phpImage, this`localEnvFile, this`nginxContent, this`nginxConf, this`hosts
      ensures r == old(EnvironmentResult(a))
      ensures EnvironmentPrepared(a)
      ensures r.Success? ==>
        (Occurs(hosts.value, Host(r.value), 0) <==> Occurs(old(hosts).value, Host(r.value), 0) || a.addHost)
    {
      var err := PrepareIfNeeded(a);
      if err.Some? {
        return Failure(err.value);
      }
      r := NameAndHost(a.changeServer, a.serverName, a.addHost);
    }

    /** The first half of `prepareEnvironment`: the `.env` prepared when there is none yet or
        the user overrides it. */
    method PrepareIfNeeded(a: Answers) returns (err: Option<Failure>)
      requires ValidChoice(a.stage)
      modifies this`envContent, this`phpImage, this`localEnvFile
      ensures err == if old(localEnvFile).None? || a.overrideEnv then DockerEnvError(distEnv, old(localEnvFile), phpDockerfile) else None
      ensures !(old(localEnvFile).None? || a.overrideEnv) ==>
        envContent == old(envContent) && phpImage == old(phpImage) && localEnvFile == old(localEnvFile)
      ensures (old(localEnvFile).None? || a.overrideEnv) && err.None? ==>
        var image := Stages(phpDockerfile.content)[a.stage];
        && phpImage == Some(image) && localEnvFile == envContent
        && envContent == Some(PreparedEnv(CopiedEnv(distEnv, old(localEnvFile)).value, image, a.configureType,
                                          a.typeAnswers, a.configureMysql, a.mysqlAnswers))
      ensures err.Some? ==> phpImage == old(phpImage)
      ensures err.Some? && !distEnv.NoPath? && CopiedEnv(distEnv, old(localEnvFile)).Some? ==>
        localEnvFile == CopiedEnv(distEnv, old(localEnvFile)) && envContent == localEnvFile
      ensures err.Some? && (distEnv.NoPath? || CopiedEnv(distEnv, old(localEnvFile)).None?) ==>
        localEnvFile == old(localEnvFile) && envContent == old(envContent)
    {
      err := None;
      if localEnvFile.None? || a.overrideEnv {
        err := PrepareDockerEnv(a.stage, a.configureType, a.typeAnswers, a.configureMysql, a.mysqlAnswers);
      }
    }

    /** The second half of `prepareEnvironment`: the server name chosen, then the host set up
        for it. */
    method NameAndHost(change: bool, answer: Option<string>, addHost: bool) returns (r: Result<string, Failure>)
      modifies this`nginxContent, this`nginxConf, this`hosts
      ensures var c := ServerChoice(old(nginxConf), nginxPath, change, answer);
              r == if c.Success? && old(hosts).None? then Failure(FileException(HostsMissing)) else c
      ensures nginxConf == NginxAfter(old(nginxConf), change, answer)
      ensures old(nginxConf).Text? ==> nginxContent == Some(NginxAfter(old(nginxConf), change, answer).content)
      ensures !old(nginxConf).Text? ==> nginxContent == old(nginxContent)
      ensures r.Failure? ==> hosts == old(hosts)
      ensures r.Success? ==> old(hosts).Some? && hosts == Some(WithHost(old(hosts).value, appName, r.value, addHost))
      ensures r.Success? ==>
        (Occurs(hosts.value, Host(r.value), 0) <==> Occurs(old(hosts).value, Host(r.value), 0) || addHost)
    {
      r := ChooseServerName(change, answer);
      if r.Failure? {
        return r;
      }
      var err := SetupHost(r.value, addHost);
      if err.Some? {
        return Failure(err.value);
      }
    }

    /** `execute`: the steps in order, any exception ending the command with the error status.
        A failed build exits with the error status directly. Otherwise the command succeeds,
        and the project is announced ready only with a database imported and `env.php` present. */
    method Execute(prerequisites: Option<Failure>, dependencies: Option<Failure>, a: Answers,
                   build: ProcessResult, start: ProcessResult, mutagen: Option<Failure>, synced: bool,
                   imported: Result<bool, Failure>, hasMagentoEnv: bool) returns (o: Outcome)
      requires ValidChoice(a.stage)
      modifies this`envContent, this`phpImage, this`localEnvFile, this`nginxContent, this`nginxConf, this`hosts
      ensures prerequisites.Some? || dependencies.Some? ==> unchanged(this)
      ensures prerequisites.None? && dependencies.None? ==> EnvironmentPrepared(a)
      ensures prerequisites.Some? ==> o == Caught(prerequisites.value)
      ensures prerequisites.None? && dependencies.Some? ==> o == Caught(dependencies.value)
      ensures prerequisites.None? && dependencies.None? ==>
        var env := old(EnvironmentResult(a));
        var started := StartError(start, mutagen, synced);
        && (env.Failure? ==> o == Caught(env.error))
        && (env.Success? && !build.successful ==> o == Exit(CodeError, [ErrorNote(build.errorOutput)]))
        && (env.Success? && build.successful && started.Some? ==> o == Caught(started.value))
        && (env.Success? && build.successful && started.None? && imported.Failure? ==> o == Caught(imported.error))
        && (env.Success? && build.successful && started.None? && imported.Success? ==>
              o == Exit(CodeSuccess, Summary(env.value, imported.value, hasMagentoEnv)))
      ensures o.Uncaught? ==> !IsException(o.error)
      ensures (o.Exit? && o.status == CodeSuccess) <==>
        && prerequisites.None? && dependencies.None? && old(EnvironmentResult(a)).Success?
        && build.successful && StartError(start, mutagen, synced).None? && imported.Success?
    {
      if prerequisites.Some? {
        return Caught(prerequisites.value);
      }
      if dependencies.Some? {
        return Caught(dependencies.value);
      }
      var server := PrepareEnvironment(a);
      if server.Failure? {
        return Caught(server.error);
      }
      if !build.successful {
        return Exit(CodeError, [ErrorNote(build.errorOutput)]);
      }
      var err := StartContainers(start, mutagen, synced);
      if err.Some? {
        return Caught(err.value);
      }
      if imported.Failure? {
        return Caught(imported.error);
      }
      o := Exit(CodeSuccess, Summary(server.value, imported.value, hasMagentoEnv));
    }
  }
}

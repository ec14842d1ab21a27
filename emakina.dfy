/**
 * The Emakina Docker environment: the state it keeps (the loaded `.env` text, the cached
 * compose file and its counts, the chosen images) and the operations on it. Files on disk are
 * fields holding their text (`None` when missing); prompt answers, the working directory, the
 * configured environments and the tags of an image are parameters.
 */
module EmakinaEnv {
  import opened Wrappers
  import opened Text
  import opened Pattern
  import opened Section
  import opened EnvFile
  import opened Compose
  import opened Nginx
  import opened Process
  import Make

  const ComposeFile := "vendor/emakinafr/docker-magento2/docker-compose.yml"
  const NginxConf := "docker/local/nginx.conf"

  /** `dir` is the first configured environment that `current` starts with, or `current`
      itself when none does. */
  ghost predicate SelectedDir(current: string, environments: seq<string>, dir: string) {
    (exists k :: 0 <= k < |environments| && environments[k] <= current && dir == environments[k]
                 && forall i :: 0 <= i < k ==> !(environments[i] <= current))
    || ((forall k :: 0 <= k < |environments| ==> !(environments[k] <= current)) && dir == current)
  }

  /** The constructor's search of the configured environments for one holding the current
      directory (`substr($current, 0, strlen($env)) === $env`). */
  method SelectWorkingDir(current: string, environments: seq<string>) returns (dir: string)
    ensures SelectedDir(current, environments, dir)
  {
    var k := 0;
    while k < |environments|
      invariant 0 <= k <= |environments|
      invariant forall i :: 0 <= i < k ==> !(environments[i] <= current)
    {
      if environments[k] <= current {
        return environments[k];
      }
      k := k + 1;
    }
    return current;
  }

  /** The path without its trailing slashes. */
  function StripTrailingSlashes(p: string): (q: string)
    ensures q <= p && (|q| > 0 ==> q[|q| - 1] != '/')
    ensures forall i :: |q| <= i < |p| ==> p[i] == '/'
  {
    if |p| > 0 && p[|p| - 1] == '/' then StripTrailingSlashes(p[..|p| - 1]) else p
  }

  /** PHP's `basename` on a Unix path. */
  function Basename(p: string): string {
    AfterLast(StripTrailingSlashes(p), '/')
  }

  /** `basename` gives the last component: no slash in it, and it ends the path once trailing
      slashes are dropped, right after a slash or at the start. */
  lemma BasenameIsLastComponent(p: string)
    ensures '/' !in Basename(p)
    ensures var q := StripTrailingSlashes(p);
            var b := Basename(p);
            q == q[..|q| - |b|] + b && (|b| < |q| ==> q[|q| - |b| - 1] == '/')
  {
    var q := StripTrailingSlashes(p);
    var b := AfterLast(q, '/');
    assert Basename(p) == b;
    SuffixSplit(q, b);
  }

  lemma SuffixSplit(q: string, b: string)
    requires |b| <= |q| && b == q[|q| - |b|..]
    ensures q == q[..|q| - |b|] + b
  {
    assert q == q[..|q| - |b|] + q[|q| - |b|..];
  }

  /** PHP's `empty` on a string. */
  predicate PhpEmpty(s: string) {
    s == "" || s == "0"
  }

  /** A value of `getVariableValue` kept as an image, if it was read without error. */
  function ImageOf(compose: string, env: string, variable: string): Option<string> {
    match VariableValue(compose, env, variable)
    case Success(v) => Some(v)
    case Failure(_) => None
  }

  /** `COMPOSE_PROJECT_NAME`: `magento2_` and the working directory's base name in lower case. */
  function ProjectName(workingDir: string): string {
    "magento2_" + LowerStr(Basename(workingDir))
  }

  /** `PROJECT_LOCATION`: `getcwd()`, or the empty string when PHP counts it as empty. */
  function ProjectLocation(cwd: string): string {
    if PhpEmpty(cwd) then "" else cwd
  }

  /** The three variables every environment needs, with their values. */
  function BaseVariables(file: string, project: string, location: string): (m: map<string, string>)
    ensures m.Keys == {"COMPOSE_FILE", "COMPOSE_PROJECT_NAME", "PROJECT_LOCATION"}
    ensures m["COMPOSE_FILE"] == file && m["COMPOSE_PROJECT_NAME"] == project && m["PROJECT_LOCATION"] == location
  {
    assert "COMPOSE_FILE"[8] != "COMPOSE_PROJECT_NAME"[8] && "COMPOSE_FILE"[0] != "PROJECT_LOCATION"[0];
    assert "COMPOSE_PROJECT_NAME"[0] != "PROJECT_LOCATION"[0];
    map["COMPOSE_FILE" := file, "COMPOSE_PROJECT_NAME" := project, "PROJECT_LOCATION" := location]
  }

  const ImageVariables: set<string> := {"DOCKER_PHP_IMAGE", "DOCKER_MYSQL_IMAGE", "DOCKER_ELASTICSEARCH_IMAGE", "DOCKER_REDIS_IMAGE"}

  const PhpVariable := "DOCKER_PHP_IMAGE"
  const MysqlVariable := "DOCKER_MYSQL_IMAGE"
  const ElasticsearchVariable := "DOCKER_ELASTICSEARCH_IMAGE"
  const RedisVariable := "DOCKER_REDIS_IMAGE"

  /** The base variables with the four images added. */
  function WithImages(base: map<string, string>, php: string, mysql: string, elasticsearch: string, redis: string)
    : (m: map<string, string>)
    ensures m.Keys == base.Keys + ImageVariables
    ensures forall v :: v in base && v !in ImageVariables ==> m[v] == base[v]
    ensures "COMPOSE_FILE" in base ==> m["COMPOSE_FILE"] == base["COMPOSE_FILE"]
    ensures "COMPOSE_PROJECT_NAME" in base ==> m["COMPOSE_PROJECT_NAME"] == base["COMPOSE_PROJECT_NAME"]
    ensures "PROJECT_LOCATION" in base ==> m["PROJECT_LOCATION"] == base["PROJECT_LOCATION"]
    ensures m["DOCKER_PHP_IMAGE"] == php && m["DOCKER_MYSQL_IMAGE"] == mysql
    ensures m["DOCKER_ELASTICSEARCH_IMAGE"] == elasticsearch && m["DOCKER_REDIS_IMAGE"] == redis
  {
    assert "DOCKER_PHP_IMAGE"[7] == 'P' && "DOCKER_MYSQL_IMAGE"[7] == 'M';
    assert "DOCKER_ELASTICSEARCH_IMAGE"[7] == 'E' && "DOCKER_REDIS_IMAGE"[7] == 'R';
    assert |"COMPOSE_FILE"| == 12 && |"COMPOSE_PROJECT_NAME"| == 20;
    assert "PROJECT_LOCATION"[0] != "DOCKER_PHP_IMAGE"[0];
    assert "COMPOSE_FILE" !in ImageVariables && "COMPOSE_PROJECT_NAME" !in ImageVariables;
    assert "PROJECT_LOCATION" !in ImageVariables;
    base["DOCKER_PHP_IMAGE" := php]["DOCKER_MYSQL_IMAGE" := mysql]
        ["DOCKER_ELASTICSEARCH_IMAGE" := elasticsearch]["DOCKER_REDIS_IMAGE" := redis]
  }

  /** `getDockerRequiredVariables` for a given `workingDir`, `getcwd()` and image fields: the
      image variables are added only once the PHP image is known, and reading an image that was
      never set is an error. */
  function RequiredVariables(workingDir: string, cwd: string, php: Option<string>, mysql: Option<string>,
                             elasticsearch: Option<string>, redis: Option<string>): (r: Result<map<string, string>, Failure>)
    ensures r.Failure? <==> php.Some? && (mysql.None? || elasticsearch.None? || redis.None?)
    ensures r.Success? ==> r.value.Keys == {"COMPOSE_FILE", "COMPOSE_PROJECT_NAME", "PROJECT_LOCATION"} + (if php.Some? then ImageVariables else {})
    ensures r.Success? ==>
      && r.value["COMPOSE_FILE"] == "./" + ComposeFile
      && r.value["COMPOSE_PROJECT_NAME"] == ProjectName(workingDir)
      && r.value["PROJECT_LOCATION"] == ProjectLocation(cwd)
    ensures r.Success? && php.Some? ==>
      && r.value["DOCKER_PHP_IMAGE"] == php.value && r.value["DOCKER_MYSQL_IMAGE"] == mysql.value
      && r.value["DOCKER_ELASTICSEARCH_IMAGE"] == elasticsearch.value && r.value["DOCKER_REDIS_IMAGE"] == redis.value
  {
    var base := BaseVariables("./" + ComposeFile, ProjectName(workingDir), ProjectLocation(cwd));
    if php.None? then Success(base)
    else if mysql.None? || elasticsearch.None? || redis.None? then
      Failure(Error("Typed property must not be accessed before initialization"))
    else
      Success(WithImages(base, php.value, mysql.value, elasticsearch.value, redis.value))
  }

  /** The tag list halfway through the shift: keys 0..n-1 hold the tags, key n too once the
      shift has begun, keys up to `i` are not moved yet and keys above `i` hold the tag before. */
  ghost predicate Shifted(m: map<int, string>, tags: seq<string>, i: nat) {
    && (forall k :: k in m ==> 0 <= k <= |tags|)
    && (forall k :: 0 <= k <= i && k < |tags| ==> k in m && m[k] == tags[k])
    && (forall k :: i < k <= |tags| ==> k in m && m[k] == tags[k - 1])
  }

  lemma ShiftStep(m: map<int, string>, tags: seq<string>, i: int)
    requires 0 < i <= |tags| && Shifted(m, tags, i)
    ensures Shifted(m[i := m[i - 1]], tags, i - 1)
  {
    var m' := m[i := m[i - 1]];
    forall k | i - 1 < k <= |tags| ensures k in m' && m'[k] == tags[k - 1] {
      if k == i {
        assert m'[k] == m[i - 1] == tags[i - 1];
      }
    }
  }

  lemma ShiftDone(m: map<int, string>, tags: seq<string>)
    requires Shifted(m, tags, 0)
    ensures forall k :: k in m - {0} <==> 1 <= k <= |tags|
    ensures forall k :: 1 <= k <= |tags| ==> (m - {0})[k] == tags[k - 1]
  {
  }

  /** `selectImage`'s shift of the tag list to keys 1..n (key 0 dropped). */
  method Reindex(tags: seq<string>) returns (m: map<int, string>)
    ensures forall k :: k in m <==> 1 <= k <= |tags|
    ensures forall k :: 1 <= k <= |tags| ==> m[k] == tags[k - 1]
  {
    var n := |tags|;
    m := map k | 0 <= k < n :: tags[k];
    var i := n;
    while i > 0
      invariant 0 <= i <= n && Shifted(m, tags, i)
    {
      ShiftStep(m, tags, i);
      m := m[i := m[i - 1]];
      i := i - 1;
    }
    ShiftDone(m, tags);
    m := m - {0};
  }

  /** The message of a build that ran out of time. */
  const BuildTimeout := "Build timeout, use the option --no-timeout or run directly `make build` to build the environment."

  /** `build`: a failed build is a `ProcessException` on timeout and an `EnvironmentException`
      with the error output otherwise. */
  function BuildOutcome(p: ProcessResult): (r: Result<bool, Failure>)
    ensures r.Success? <==> p.successful
    ensures r.Success? ==> r.value
    ensures !p.successful && p.exit == Timeout ==> r == Failure(ProcessException(BuildTimeout))
    ensures !p.successful && p.exit != Timeout ==> r == Failure(EnvironmentException(p.errorOutput))
  {
    if !p.successful then
      if p.exit == Timeout then
        Failure(ProcessException(BuildTimeout))
      else Failure(EnvironmentException(p.errorOutput))
    else Success(true)
  }

  /** `stop`: any failure is an `EnvironmentException` with the error output. */
  function StopOutcome(p: ProcessResult): (r: Result<bool, Failure>)
    ensures r.Success? <==> p.successful
    ensures r.Success? ==> r.value
    ensures r.Failure? ==> r.error == EnvironmentException(p.errorOutput)
  {
    if !p.successful then Failure(EnvironmentException(p.errorOutput)) else Success(true)
  }

  const UninstallFailed := "Environment couldn't be uninstall: "

  /** `uninstall`: the result, and the lines of the error block shown. A failed purge shows the
      error output and gives false; nothing is thrown. */
  function UninstallOutcome(p: ProcessResult): (r: (bool, seq<string>))
    ensures r.0 <==> StopOutcome(p).Success?
    ensures r.0 <==> r.1 == []
    ensures !r.0 ==> r.1 == [UninstallFailed, StopOutcome(p).error.msg]
  {
    if !p.successful then (false, [UninstallFailed, p.errorOutput]) else (true, [])
  }

  const SyncFailed := "Something happened during the sync, check the situation with <fg=yellow>mutagen monitor</>."

  /** `start` (and the install command's `startContainers`): a failure other than the timeout
      is an error; on the timeout code the session is started and the synchronisation watched,
      and only a session that is running and synced is a success. */
  method StartOutcome(p: ProcessResult, synchroUp: bool, state: Make.SessionState, createSucceeds: bool,
                      resumeSucceeds: bool, synced: bool)
    returns (r: Result<bool, Failure>, calls: seq<Make.SessionCall>)
    ensures !p.successful && p.exit != Timeout ==> r == Failure(EnvironmentException(p.errorOutput))
    ensures p.exit != Timeout ==> calls == []
    ensures p.successful && p.exit != Timeout ==> r == Success(true)
    ensures p.exit == Timeout ==>
      (r.Success? <==> synchroUp && (state != Make.NoSession || createSucceeds) && synced)
    ensures p.exit == Timeout && !synchroUp ==> r == Failure(ProcessException("Synchro container is not started"))
    ensures p.exit == Timeout && r.Success? ==>
      (Make.After(state, calls, createSucceeds, resumeSucceeds) == Make.Running
       <==> state == Make.Running || state == Make.NoSession || (state == Make.Paused && resumeSucceeds))
    ensures p.exit == Timeout && synchroUp && (state != Make.NoSession || createSucceeds) && !synced ==>
      r == Failure(EnvironmentException(SyncFailed))
  {
    calls := [];
    if !p.successful && p.exit != Timeout {
      return Failure(EnvironmentException(p.errorOutput)), calls;
    }
    if p.exit == Timeout {
      var m;
      m, calls := Make.StartMutagen(synchroUp, state, createSucceeds, resumeSucceeds);
      if m.Failure? {
        return Failure(m.error), calls;
      }
      if !synced {
        return Failure(EnvironmentException(SyncFailed)), calls;
      }
    }
    r := Success(true);
  }

  class Emakina {
    const workingDir: string
    /** `docker/local/.env`, `docker/local/.env.dist`, the compose file and `nginx.conf` on disk. */
    var envFile: Option<string>
    var composeFile: Option<string>
    var nginxConf: Option<string>
    /** `localEnvContent` (an uninitialised typed property is `None`). */
    var localEnvContent: Option<string>
    var dockerComposeContent: Option<string>
    var containers: Option<nat>
    var volumes: Option<nat>
    var phpImage: Option<string>
    var mysqlImage: Option<string>
    var elasticsearchImage: Option<string>
    var redisImage: Option<string>

    /** A cached count is the count of the cached compose text. */
    predicate CacheValid()
      reads this`containers, this`volumes, this`dockerComposeContent
    {
      && (containers.Some? ==> dockerComposeContent.Some? && containers.value == Containers(dockerComposeContent.value))
      && (volumes.Some? ==> dockerComposeContent.Some? && volumes.value == Volumes(dockerComposeContent.value))
    }

    /** The constructor without `autoLocate`, which `Create` runs next. */
    constructor (current: string, environments: seq<string>, envFile: Option<string>,
                 composeFile: Option<string>, nginxConf: Option<string>)
      ensures SelectedDir(current, environments, workingDir)
      ensures this.envFile == envFile && this.composeFile == composeFile && this.nginxConf == nginxConf
      ensures localEnvContent.None? && dockerComposeContent.None? && containers.None? && volumes.None?
      ensures phpImage.None? && mysqlImage.None? && elasticsearchImage.None? && redisImage.None?
      ensures CacheValid()
    {
      var dir := SelectWorkingDir(current, environments);
      workingDir := dir;
      this.envFile := envFile;
      this.composeFile := composeFile;
      this.nginxConf := nginxConf;
      localEnvContent := None;
      dockerComposeContent := None;
      containers := None;
      volumes := None;
      phpImage := None;
      mysqlImage := None;
      elasticsearchImage := None;
      redisImage := None;
    }

    /** Construction followed by `autoLocate`; an exception there is returned. */
    static method Create(current: string, environments: seq<string>, envFile: Option<string>,
                         composeFile: Option<string>, nginxConf: Option<string>)
      returns (e: Emakina, err: Option<Failure>)
      ensures fresh(e) && SelectedDir(current, environments, e.workingDir) && e.CacheValid()
      ensures envFile.None? || PhpEmpty(envFile.value) ==> err.None? && e.phpImage.None?
      ensures err.None? && envFile.Some? && !PhpEmpty(envFile.value) ==>
        composeFile.Some? && e.phpImage == ImageOf(composeFile.value, envFile.value, "DOCKER_PHP_IMAGE")
    {
      e := new Emakina(current, environments, envFile, composeFile, nginxConf);
      err := e.AutoLocate();
    }

    /** The `.env` text `getLocalEnvData` works on: the loaded text, else the file. */
    function LoadedEnv(): Option<string>
      reads this`localEnvContent, this`envFile
    {
      if localEnvContent.Some? then localEnvContent else envFile
    }

    /** The compose text `getDockerComposeContent` works on: the cached text, else the file. */
    function ComposeText(): Option<string>
      reads this`dockerComposeContent, this`composeFile
    {
      if dockerComposeContent.Some? then dockerComposeContent else composeFile
    }

    /** `getLocalEnvData`: loads the file once; the empty string when there is none. */
    method LocalEnvData() returns (content: string)
      modifies this`localEnvContent
      ensures localEnvContent == old(LoadedEnv())
      ensures content == old(LoadedEnv()).GetOr("")
    {
      if localEnvContent.None? && envFile.Some? {
        localEnvContent := envFile;
      }
      content := localEnvContent.GetOr("");
    }

    /** `getEnvData`. */
    method GetEnvData(name: string) returns (v: string)
      modifies this`localEnvContent
      ensures localEnvContent == old(LoadedEnv())
      ensures v == EnvData(old(LoadedEnv()).GetOr(""), name)
    {
      var content := LocalEnvData();
      v := EnvData(content, name);
    }

    /** `getDockerComposeContent`: reads the file once, or throws when it is missing. */
    method DockerComposeContent() returns (r: Result<string, Failure>)
      modifies this`dockerComposeContent
      ensures dockerComposeContent == old(ComposeText())
      ensures r == if old(ComposeText()).Some? then Success(old(ComposeText()).value)
                   else Failure(FileNotFoundException("docker-compose.yml is not found."))
    {
      if dockerComposeContent.Some? {
        return Success(dockerComposeContent.value);
      }
      if composeFile.None? {
        return Failure(FileNotFoundException("docker-compose.yml is not found."));
      }
      dockerComposeContent := composeFile;
      r := Success(composeFile.value);
    }

    /** `getContainers`: the cached count, or the count of service lines, then cached. */
    method GetContainers() returns (r: Result<nat, Failure>)
      requires CacheValid()
      modifies this`containers, this`dockerComposeContent
      ensures CacheValid()
      ensures old(containers).Some? ==> r == Success(old(containers).value) && unchanged(this)
      ensures old(containers).None? && old(ComposeText()).None? ==> r.Failure? && containers.None?
      ensures old(containers).None? && old(ComposeText()).Some? ==>
        r == Success(Containers(old(ComposeText()).value)) && containers == Some(r.value)
      ensures r.Success? ==> r.value == Containers(dockerComposeContent.value)
    {
      if containers.Some? {
        return Success(containers.value);
      }
      var content := DockerComposeContent();
      if content.Failure? {
        return Failure(content.error);
      }
      containers := Some(Containers(content.value));
      r := Success(containers.value);
    }

    /** `getVolumes`: the cached count, or the count of volume lines, then cached. */
    method GetVolumes() returns (r: Result<nat, Failure>)
      requires CacheValid()
      modifies this`volumes, this`dockerComposeContent
      ensures CacheValid()
      ensures old(volumes).Some? ==> r == Success(old(volumes).value) && unchanged(this)
      ensures old(volumes).None? && old(ComposeText()).None? ==> r.Failure? && volumes.None?
      ensures old(volumes).None? && old(ComposeText()).Some? ==>
        r == Success(Volumes(old(ComposeText()).value)) && volumes == Some(r.value)
      ensures r.Success? ==> r.value == Volumes(dockerComposeContent.value)
    {
      if volumes.Some? {
        return Success(volumes.value);
      }
      var content := DockerComposeContent();
      if content.Failure? {
        return Failure(content.error);
      }
      volumes := Some(Volumes(content.value));
      r := Success(volumes.value);
    }

    /** `isVariableUsed`. */
    method IsVariableUsed(variable: string) returns (r: Result<bool, Failure>)
      modifies this`dockerComposeContent
      ensures dockerComposeContent == old(ComposeText())
      ensures old(ComposeText()).None? ==> r.Failure?
      ensures old(ComposeText()).Some? ==> r == Success(EnvFile.IsVariableUsed(old(ComposeText()).value, variable))
    {
      var content := DockerComposeContent();
      if content.Failure? {
        return Failure(content.error);
      }
      r := Success(EnvFile.IsVariableUsed(content.value, variable));
    }

    /** `getVariableValue`: the `.env` file is only loaded for a variable the compose file uses. */
    method GetVariableValue(variable: string) returns (r: Result<string, Failure>)
      modifies this`dockerComposeContent, this`localEnvContent
      ensures dockerComposeContent == old(ComposeText()) && LoadedEnv() == old(LoadedEnv())
      ensures old(ComposeText()).None? ==> r.Failure? && localEnvContent == old(localEnvContent)
      ensures old(ComposeText()).Some? ==>
        r == VariableValue(old(ComposeText()).value, old(LoadedEnv()).GetOr(""), variable)
      ensures localEnvContent == if old(ComposeText()).Some? && EnvFile.IsVariableUsed(old(ComposeText()).value, variable)
                                 then old(LoadedEnv()) else old(localEnvContent)
    {
      var used := IsVariableUsed(variable);
      if used.Failure? {
        return Failure(used.error);
      }
      if !used.value {
        return Success("");
      }
      var content := LocalEnvData();
      r := VariableValue(dockerComposeContent.value, content, variable);
    }

    /** `setVariableValue`. */
    method SetVariableValue(variable: string, value: string)
      modifies this`localEnvContent
      ensures localEnvContent == Some(SetVariable(old(LoadedEnv()).GetOr(""), variable, value))
    {
      var content := LocalEnvData();
      localEnvContent := Some(SetVariable(content, variable, value));
    }

    /** One `$this->…Image = $this->getVariableValue(…)` of `autoLocate`: the texts it reads are
        left as they were seen, only loaded. */
    method ReadImage(variable: string) returns (r: Result<string, Failure>)
      requires CacheValid()
      modifies this`dockerComposeContent, this`localEnvContent
      ensures CacheValid()
      ensures ComposeText() == old(ComposeText()) && LoadedEnv() == old(LoadedEnv())
      ensures old(dockerComposeContent).Some? ==> dockerComposeContent == old(dockerComposeContent)
      ensures r.Success? ==> old(ComposeText()).Some? && ImageOf(old(ComposeText()).value, old(LoadedEnv()).GetOr(""), variable) == Some(r.value)
    {
      r := GetVariableValue(variable);
    }

    /** `autoLocate`: with a non-empty `.env`, the four images are read in turn; the first
        failure stops the reading. */
    method AutoLocate() returns (err: Option<Failure>)
      requires CacheValid()
      modifies this`localEnvContent, this`dockerComposeContent, this`phpImage, this`mysqlImage,
               this`elasticsearchImage, this`redisImage
      ensures CacheValid()
      ensures PhpEmpty(old(LoadedEnv()).GetOr("")) ==>
        err.None? && phpImage == old(phpImage) && mysqlImage == old(mysqlImage)
        && elasticsearchImage == old(elasticsearchImage) && redisImage == old(redisImage)
      ensures err.None? && !PhpEmpty(old(LoadedEnv()).GetOr("")) ==>
        var env := old(LoadedEnv()).GetOr("");
        && old(ComposeText()).Some?
        && phpImage == ImageOf(old(ComposeText()).value, env, PhpVariable) && phpImage.Some?
        && mysqlImage == ImageOf(old(ComposeText()).value, env, MysqlVariable) && mysqlImage.Some?
        && elasticsearchImage == ImageOf(old(ComposeText()).value, env, ElasticsearchVariable) && elasticsearchImage.Some?
        && redisImage == ImageOf(old(ComposeText()).value, env, RedisVariable) && redisImage.Some?
    {
      var content := LocalEnvData();
      if PhpEmpty(content) {
        return None;
      }
      err := LocateImages();
    }

    /** The four reads of `autoLocate`, each image field set as soon as it is read. */
    method LocateImages() returns (err: Option<Failure>)
      requires CacheValid()
      modifies this`localEnvContent, this`dockerComposeContent, this`phpImage, this`mysqlImage,
               this`elasticsearchImage, this`redisImage
      ensures CacheValid() && ComposeText() == old(ComposeText()) && LoadedEnv() == old(LoadedEnv())
      ensures err.None? ==>
        var env := old(LoadedEnv()).GetOr("");
        && old(ComposeText()).Some?
        && phpImage == ImageOf(old(ComposeText()).value, env, PhpVariable) && phpImage.Some?
        && mysqlImage == ImageOf(old(ComposeText()).value, env, MysqlVariable) && mysqlImage.Some?
        && elasticsearchImage == ImageOf(old(ComposeText()).value, env, ElasticsearchVariable) && elasticsearchImage.Some?
        && redisImage == ImageOf(old(ComposeText()).value, env, RedisVariable) && redisImage.Some?
    {
      err := LocatePair(PhpVariable, MysqlVariable, true);
      if err.Some? {
        return;
      }
      err := LocatePair(ElasticsearchVariable, RedisVariable, false);
    }

    /** Two reads in turn: into the PHP and MySQL images, or into the Elasticsearch and Redis
        images; the first failure stops the reading. */
    method LocatePair(first: string, second: string, servers: bool) returns (err: Option<Failure>)
      requires CacheValid()
      modifies this`localEnvContent, this`dockerComposeContent,
               if servers then {this} else {}`phpImage, if servers then {this} else {}`mysqlImage,
               if servers then {} else {this}`elasticsearchImage, if servers then {} else {this}`redisImage
      ensures CacheValid() && ComposeText() == old(ComposeText()) && LoadedEnv() == old(LoadedEnv())
      ensures err.None? ==>
        var env := old(LoadedEnv()).GetOr("");
        && old(ComposeText()).Some?
        && (if servers then phpImage else elasticsearchImage) == ImageOf(old(ComposeText()).value, env, first)
        && (if servers then mysqlImage else redisImage) == ImageOf(old(ComposeText()).value, env, second)
        && (if servers then phpImage else elasticsearchImage).Some?
        && (if servers then mysqlImage else redisImage).Some?
    {
      var v := ReadImage(first);
      if v.Failure? {
        return Some(v.error);
      }
      if servers {
        phpImage := Some(v.value);
      } else {
        elasticsearchImage := Some(v.value);
      }
      v := ReadImage(second);
      if v.Failure? {
        return Some(v.error);
      }
      if servers {
        mysqlImage := Some(v.value);
      } else {
        redisImage := Some(v.value);
      }
      err := None;
    }

    /** `getDockerRequiredVariables`, given what `getcwd()` returns. */
    function DockerRequiredVariables(cwd: string): (r: Result<map<string, string>, Failure>)
      reads this
      ensures r.Failure? <==> phpImage.Some? && (mysqlImage.None? || elasticsearchImage.None? || redisImage.None?)
      ensures r.Success? ==>
        r.value.Keys == {"COMPOSE_FILE", "COMPOSE_PROJECT_NAME", "PROJECT_LOCATION"} + (if phpImage.Some? then ImageVariables else {})
    {
      RequiredVariables(workingDir, cwd, phpImage, mysqlImage, elasticsearchImage, redisImage)
    }

    /** `getWorkingDir`: the whole directory, or its last component. */
    function WorkingDir(complete: bool): (r: string)
      reads this
      ensures complete ==> r == workingDir
      ensures !complete ==> var q := StripTrailingSlashes(workingDir);
                            '/' !in r && |r| <= |q| && q[|q| - |r|..] == r && (|r| < |q| ==> q[|q| - |r| - 1] == '/')
    {
      if complete then workingDir else Basename(workingDir)
    }

    /** `getServerName`, reading `nginx.conf`. */
    function GetServerName(complete: bool): (r: Result<string, Failure>)
      reads this
      ensures nginxConf.None? <==> r.Failure?
      ensures r.Failure? ==> r.error.EnvironmentException?
      ensures nginxConf.Some? ==> r == Success(ServerName(nginxConf.value, complete))
    {
      if nginxConf.None? then
        Failure(EnvironmentException("Something went wrong while reading " + NginxConf + ", ensure the file is present."))
      else Success(ServerName(nginxConf.value, complete))
    }

    /** `chooseServerName`: keeps the current name, or writes the answer into `nginx.conf`.
        `answer` is the value the prompt returns: on an empty answer that is its default, the
        current name, so no typed empty name is meant by `""`. */
    method ChooseServerName(change: bool, answer: string) returns (r: Result<string, Failure>)
      modifies this`nginxConf
      ensures old(nginxConf).None? ==> r.Failure? && nginxConf == old(nginxConf)
      ensures old(nginxConf).Some? && !change ==>
        r == Success(ServerName(old(nginxConf).value, false)) && nginxConf == old(nginxConf)
      ensures old(nginxConf).Some? && change ==>
        r == Success(answer) && nginxConf == Some(Rename(old(nginxConf).value, answer))
    {
      var current := GetServerName(false);
      if current.Failure? {
        return current;
      }
      r := current;
      if change {
        nginxConf := Some(Rename(nginxConf.value, answer));
        r := Success(answer);
      }
    }

    /** `selectImage`: one tag is taken as it is; several are offered under keys 1..n with the
        first as default (`None` accepts it); no tag at all is an error. The choice is written
        to the `.env` text. */
    method SelectImage(variable: string, tags: seq<string>, answer: Option<nat>) returns (r: Result<string, Failure>)
      requires |tags| > 1 && answer.Some? ==> 1 <= answer.value <= |tags|
      modifies this`localEnvContent
      ensures |tags| == 0 ==> r == Failure(InvalidArgumentException("Image should be a string, NULL given"))
                              && localEnvContent == old(localEnvContent)
      ensures |tags| == 1 ==> r == Success(tags[0])
      ensures |tags| > 1 ==> r == Success(if answer.Some? then tags[answer.value - 1] else tags[0])
      ensures r.Success? ==> localEnvContent == Some(SetVariable(old(LoadedEnv()).GetOr(""), variable, r.value))
    {
      var image: string;
      if |tags| > 1 {
        var choices := Reindex(tags);
        image := if answer.Some? then choices[answer.value] else choices[1];
      } else if |tags| == 1 {
        image := tags[0];
      } else {
        return Failure(InvalidArgumentException("Image should be a string, NULL given"));
      }
      SetVariableValue(variable, image);
      r := Success(image);
    }

    /** `configureEnv` of the Emakina environment: the entries of the section at line starts,
        each rewritten in turn when its answer is new; a warning (`true`) when there is none.
        Scanning a `.env` text that was never loaded reads an uninitialised property. */
    method ConfigureEnv(prefix: string, answers: seq<string>) returns (r: Result<bool, Failure>)
      modifies this`localEnvContent
      ensures old(localEnvContent).None? ==> r.Failure? && r.error.Error? && localEnvContent.None?
      ensures old(localEnvContent).Some? ==>
              var es := Entries(old(localEnvContent).value, prefix, true);
              && r == Success(|es| == 0)
              && localEnvContent == Some(Configured(old(localEnvContent).value, es, answers))
    {
      if localEnvContent.None? {
        return Failure(Error("Typed property must not be accessed before initialization"));
      }
      var c := localEnvContent.value;
      var es := Entries(c, prefix, true);
      if |es| == 0 {
        return Success(true);
      }
      ConfigureEntries(c, es, answers);
      r := Success(false);
    }

    /** The prompts of `configureEnv`, one per match in order, each rewriting the text, read
        afresh, when its answer is new. */
    method ConfigureEntries(c: string, es: seq<Entry>, answers: seq<string>)
      requires localEnvContent == Some(c)
      modifies this`localEnvContent
      ensures localEnvContent == Some(Configured(c, es, answers))
    {
      var k := 0;
      while k < |es|
        invariant 0 <= k <= |es|
        invariant localEnvContent == Some(Configured(c, es[..k], answers))
      {
        var conf := AnswerFor(answers, k, es[k]);
        assert es[..k + 1][..k] == es[..k];
        if conf != "" && conf != es[k].value {
          var content := LocalEnvData();
          localEnvContent := Some(Rewrite(content, es[k].key + "=", WordStar, KeepKey(conf)));
        }
        k := k + 1;
      }
      assert es[..|es|] == es;
    }
  }
}

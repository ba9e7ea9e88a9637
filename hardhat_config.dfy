/**
 * The deployment configuration: it reads the deployer's private key out of
 * `.env.local` by plain text search (the first `DEPLOYER_PRIVATE_KEY=`, up
 * to the end of its line, trimmed) and gives both VinuChain networks that
 * key as their only account, or no account at all.
 */
module HardhatConfig {
  import opened Wrappers
  import opened Text

  const KeyMarker: string := "DEPLOYER_PRIVATE_KEY="

  /** The text of `s` up to its first line feed, or all of it when there is none. */
  function LineFrom(s: string): (r: string)
    ensures |r| <= |s| && r == s[..|r|]
    ensures '\n' !in r
    ensures |r| < |s| ==> s[|r|] == '\n'
  {
    var endLine := IndexOf(s, "\n");
    if endLine.None? then
      assert forall k :: 0 <= k < |s| ==> s[k] != '\n' by {
        forall k | 0 <= k < |s| ensures s[k] != '\n' {
          assert !OccursAt(s, "\n", k);
          assert s[k..k + 1] == [s[k]];
        }
      }
      s
    else
      var i := endLine.value;
      assert s[i..i + 1] == "\n";
      assert forall k :: 0 <= k < i ==> s[k] != '\n' by {
        forall k | 0 <= k < i ensures s[k] != '\n' {
          assert !OccursAt(s, "\n", k);
          assert s[k..k + 1] == [s[k]];
        }
      }
      s[..i]
  }

  /** The key the loader finds in the file text, when it finds a non-empty one. */
  function FileKey(content: string): (r: Option<string>)
    ensures r.Some? ==> r.value != [] && !IsJsSpace(r.value[0]) && !IsJsSpace(r.value[|r.value| - 1])
  {
    match IndexOf(content, KeyMarker)
    case None => None
    case Some(idx) =>
      var key := Trim(LineFrom(content[idx + |KeyMarker|..]));
      if |key| > 0 then Some(key) else None
  }

  /**
   * The loader at the top of the configuration: `file` is the content of
   * `.env.local` (None when it does not exist) and `env0` the variable as
   * the process started with it; the result is the variable afterwards.
   */
  method LoadDeployerKey(file: Option<string>, env0: Option<string>) returns (env: Option<string>)
    ensures file.None? ==> env == env0
    ensures file.Some? ==> env == if FileKey(file.value).Some? then FileKey(file.value) else env0
  {
    env := env0;
    if file.None? {
      return;
    }
    var envContent := file.value;
    var idx := IndexOf(envContent, KeyMarker);
    if idx.None? {
      return;
    }
    var remainder := envContent[idx.value + |KeyMarker|..];
    var endLine := IndexOf(remainder, "\n");
    var key := if endLine.None? then remainder else remainder[..endLine.value];
    assert key == LineFrom(remainder);
    key := Trim(key);
    if |key| > 0 {
      env := Some(key);
    }
  }

  /**
   * A key the loader sets is never empty, spans no line feed and has no
   * white space at either end.
   */
  lemma FileKeyShape(content: string)
    requires FileKey(content).Some?
    ensures var v := FileKey(content).value;
      && v != [] && '\n' !in v && !IsJsSpace(v[0]) && !IsJsSpace(v[|v| - 1])
  {
    var idx := IndexOf(content, KeyMarker).value;
    TrimmedLine(LineFrom(content[idx + |KeyMarker|..]));
  }

  /** Trimming a text without line feeds leaves none, and no white space at either end. */
  lemma TrimmedLine(line: string)
    requires '\n' !in line
    ensures var v := Trim(line);
      '\n' !in v && (v != [] ==> !IsJsSpace(v[0]) && !IsJsSpace(v[|v| - 1]))
  {
    var i := TrimShape(line);
    var v := Trim(line);
    forall k | 0 <= k < |v| ensures v[k] != '\n' {
      assert v[k] == line[i + k];
    }
  }

  /** Without the marker, or with only white space after it, the variable keeps the value it started with. */
  lemma NoKeyKeepsEnvironment(content: string)
    requires IndexOf(content, KeyMarker).None?
      || (var idx := IndexOf(content, KeyMarker).value;
          forall k :: idx + |KeyMarker| <= k < |content| && k < idx + |KeyMarker| + |LineFrom(content[idx + |KeyMarker|..])| ==> IsJsSpace(content[k]))
    ensures FileKey(content).None?
  {
    if IndexOf(content, KeyMarker).Some? {
      var idx := IndexOf(content, KeyMarker).value;
      var rest := content[idx + |KeyMarker|..];
      var line := LineFrom(rest);
      forall k | 0 <= k < |line| ensures IsJsSpace(line[k]) {
        assert line[k] == content[idx + |KeyMarker| + k];
      }
      TrimEmpty(line);
    }
  }

  /**
   * Writing `DEPLOYER_PRIVATE_KEY=<key>` on a line of its own after text
   * that holds no marker, the loader reads `<key>` back.
   */
  lemma KeyLineReadsBack(before: string, key: string, after: string)
    requires forall j: nat :: j <= |before| ==> !OccursAt(before + KeyMarker, KeyMarker, j) || j == |before|
    requires key != [] && '\n' !in key && !IsJsSpace(key[0]) && !IsJsSpace(key[|key| - 1])
    ensures FileKey(before + KeyMarker + key + "\n" + after) == Some(key)
  {
    var rest := key + "\n" + after;
    assert before + KeyMarker + key + "\n" + after == before + KeyMarker + rest;
    MarkerFirstAt(before, rest);
    assert (before + KeyMarker + rest)[|before| + |KeyMarker|..] == rest;
    LineOfKey(key, after);
    TrimOfKey(key);
  }

  lemma MarkerFirstAt(before: string, rest: string)
    requires forall j: nat :: j <= |before| ==> !OccursAt(before + KeyMarker, KeyMarker, j) || j == |before|
    ensures IndexOf(before + KeyMarker + rest, KeyMarker) == Some(|before|)
  {
    var content := before + KeyMarker + rest;
    var p := |before|;
    assert content[p..p + |KeyMarker|] == KeyMarker;
    forall j: nat | j < p
      ensures OccursAt(content, KeyMarker, j) == OccursAt(before + KeyMarker, KeyMarker, j)
    {
      assert content[j..j + |KeyMarker|] == (before + KeyMarker)[j..j + |KeyMarker|];
    }
    IndexOfAt(content, KeyMarker, p);
  }

  lemma IndexOfAt(t: string, s: string, p: nat)
    requires OccursAt(t, s, p)
    requires forall j: nat :: j < p ==> !OccursAt(t, s, j)
    ensures IndexOf(t, s) == Some(p)
  {
  }

  lemma LineOfKey(key: string, after: string)
    requires '\n' !in key
    ensures LineFrom(key + "\n" + after) == key
  {
    var s := key + "\n" + after;
    var r := LineFrom(s);
    assert s[..|key|] == key && s[|key|] == '\n';
  }

  lemma TrimOfKey(key: string)
    requires key != [] && !IsJsSpace(key[0]) && !IsJsSpace(key[|key| - 1])
    ensures Trim(key) == key
  {
  }

  /** One network entry of the configuration. */
  datatype Network = Network(url: string, chainId: nat, accounts: seq<string>)

  datatype Config = Config(solidity: string, vinu: Network, vinuTestnet: Network)

  /** `process.env.DEPLOYER_PRIVATE_KEY ? [key] : []`: an unset or empty variable gives no account. */
  function Accounts(env: Option<string>): (r: seq<string>)
    ensures |r| <= 1
    ensures r == [] <==> env.None? || env.value == ""
    ensures r != [] ==> r[0] == env.value
  {
    if env.Some? && env.value != "" then [env.value] else []
  }

  /** The exported configuration for the variable's final value. */
  function ConfigFor(env: Option<string>): (c: Config)
    ensures c.solidity == "0.8.19"
    ensures c.vinu.url == "https://vinuchain-rpc.com" && c.vinu.chainId == 207
    ensures c.vinuTestnet.url == "https://vinufoundation-rpc.com" && c.vinuTestnet.chainId == 206
    ensures c.vinu.accounts == c.vinuTestnet.accounts == Accounts(env)
  {
    var accounts := Accounts(env);
    Config("0.8.19",
      Network("https://vinuchain-rpc.com", 207, accounts),
      Network("https://vinufoundation-rpc.com", 206, accounts))
  }

  /** After the loader has found a key, both networks deploy from exactly that key. */
  lemma LoadedKeyIsTheAccount(content: string)
    requires FileKey(content).Some?
    ensures ConfigFor(FileKey(content)).vinu.accounts == [FileKey(content).value]
    ensures ConfigFor(FileKey(content)).vinuTestnet.accounts == [FileKey(content).value]
  {
    FileKeyShape(content);
  }
}

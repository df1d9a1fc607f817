/**
 The LUKS settings of a volume, from the create request through the volume context to
 the node agent (luks.go:41-124, controllerserver_helper.go:531-553).
 */
module LuksContexts {
  import opened GoText

  const TRUE := "true"
  const LUKS_ENCRYPTED := "linodebs.csi.linode.com/luks-encrypted"
  const LUKS_CIPHER := "linodebs.csi.linode.com/luks-cipher"
  const LUKS_KEY_SIZE := "linodebs.csi.linode.com/luks-key-size"
  const VOLUME_NAME := "linodebs.csi.linode.com/volume-name"
  const TOPOLOGY_REGION := "topology.linode.com/region"
  const LUKS_KEY := "luksKey"
  const PARTITION := "partition"

  datatype LuksContext = LuksContext(enabled: bool, key: string, cipher: string, keySize: string, volumeName: string)

  datatype MissingField = NoVolumeName | NoKey | NoCipher | NoKeySize

  lemma ContextKeysDiffer()
    ensures LUKS_ENCRYPTED != LUKS_CIPHER && LUKS_ENCRYPTED != LUKS_KEY_SIZE && LUKS_ENCRYPTED != VOLUME_NAME
    ensures LUKS_CIPHER != LUKS_KEY_SIZE && LUKS_CIPHER != VOLUME_NAME && LUKS_KEY_SIZE != VOLUME_NAME
    ensures TOPOLOGY_REGION !in {LUKS_ENCRYPTED, LUKS_CIPHER, LUKS_KEY_SIZE, VOLUME_NAME}
    ensures PARTITION !in {LUKS_ENCRYPTED, LUKS_CIPHER, LUKS_KEY_SIZE, VOLUME_NAME, TOPOLOGY_REGION}
  {
    assert |LUKS_CIPHER| == |VOLUME_NAME| && LUKS_CIPHER[24] == 'l' && VOLUME_NAME[24] == 'v';
  }

  function EncryptedContext(name: string, parameters: map<string, string>): map<string, string> {
    map[
      LUKS_ENCRYPTED := TRUE,
      VOLUME_NAME := name,
      LUKS_CIPHER := Lookup(parameters, LUKS_CIPHER),
      LUKS_KEY_SIZE := Lookup(parameters, LUKS_KEY_SIZE)
    ]
  }

  function ContextFor(name: string, parameters: map<string, string>, region: string): map<string, string> {
    var encrypted := if Lookup(parameters, LUKS_ENCRYPTED) == TRUE then EncryptedContext(name, parameters) else map[];
    encrypted[TOPOLOGY_REGION := region]
  }

  method CreateVolumeContext(name: string, parameters: map<string, string>, region: string)
    returns (volumeContext: map<string, string>)
    ensures volumeContext == ContextFor(name, parameters, region)
  {
    ContextKeysDiffer();
    volumeContext := map[];
    if Lookup(parameters, LUKS_ENCRYPTED) == TRUE {
      volumeContext := volumeContext[LUKS_ENCRYPTED := TRUE];
      volumeContext := volumeContext[VOLUME_NAME := name];
      volumeContext := volumeContext[LUKS_CIPHER := Lookup(parameters, LUKS_CIPHER)];
      volumeContext := volumeContext[LUKS_KEY_SIZE := Lookup(parameters, LUKS_KEY_SIZE)];
    }
    volumeContext := volumeContext[TOPOLOGY_REGION := region];
  }

  function LuksContextOf(secrets: map<string, string>, volumeContext: map<string, string>): LuksContext {
    if Lookup(volumeContext, LUKS_ENCRYPTED) != TRUE then LuksContext(false, "", "", "", "")
    else LuksContext(
      true,
      Lookup(secrets, LUKS_KEY),
      Lookup(volumeContext, LUKS_CIPHER),
      Lookup(volumeContext, LUKS_KEY_SIZE),
      Lookup(volumeContext, VOLUME_NAME))
  }

  // The settings the node agent works with are the ones the request asked for, and
  // encryption is on exactly when the request said "true".
  lemma LuksContextRoundTrip(name: string, parameters: map<string, string>, region: string, secrets: map<string, string>)
    ensures LuksContextOf(secrets, ContextFor(name, parameters, region)) ==
      if Lookup(parameters, LUKS_ENCRYPTED) == TRUE
      then LuksContext(true, Lookup(secrets, LUKS_KEY), Lookup(parameters, LUKS_CIPHER), Lookup(parameters, LUKS_KEY_SIZE), name)
      else LuksContext(false, "", "", "", "")
    ensures PARTITION !in ContextFor(name, parameters, region)
    ensures Lookup(ContextFor(name, parameters, region), TOPOLOGY_REGION) == region
  {
    ContextKeysDiffer();
  }

  // The joined error of validate: nil when no complaint was added.
  method Validate(luks: LuksContext) returns (err: seq<MissingField>)
    ensures err == [] <==> Complete(luks)
    ensures luks.enabled ==> (NoVolumeName in err <==> luks.volumeName == "")
    ensures luks.enabled ==> (NoKey in err <==> luks.key == "")
    ensures luks.enabled ==> (NoCipher in err <==> luks.cipher == "")
    ensures luks.enabled ==> (NoKeySize in err <==> luks.keySize == "")
  {
    err := [];
    if !luks.enabled {
      return;
    }
    if luks.volumeName == "" {
      err := err + [NoVolumeName];
    }
    if luks.key == "" {
      err := err + [NoKey];
    }
    if luks.cipher == "" {
      err := err + [NoCipher];
    }
    if luks.keySize == "" {
      err := err + [NoKeySize];
    }
  }

  predicate Complete(luks: LuksContext) {
    luks.enabled ==> luks.volumeName != "" && luks.key != "" && luks.cipher != "" && luks.keySize != ""
  }

  // luksFormat splits the cipher at its first '-'. It finds exactly the halves that rejoin
  // to the cipher with no '-' in the first, when there are such halves; validation accepts
  // every cipher that is not empty, whether it has them or not.
  lemma CipherSplit(luks: LuksContext, cipher: string)
    requires luks.enabled && luks.cipher != "" && cipher != ""
    ensures Complete(luks.(cipher := cipher)) <==> Complete(luks)
    ensures forall a, b :: '-' !in a && cipher == a + "-" + b <==> Cut(cipher) == Some((a, b))
  {
    forall a, b | '-' !in a && cipher == a + "-" + b
      ensures Cut(cipher) == Some((a, b))
    {
      CutOfJoined(a, b);
    }
  }
}

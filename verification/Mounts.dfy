/** The volumes of a desktop pod and the mounts of its containers: apis/desktops/v1/template_util*.go.
    dir stands for path.Dir and filepath.Dir. */
module Mounts {
  import opened Wrappers

  datatype Mount = Mount(name: string, path: string)

  datatype Source =
    | EmptyDir
    | HostPath(path: string)
    | SecretOf(name: string)
    | Claim(name: string)
    | ImageCsi
    | Provided(id: nat)

  datatype Volume = Volume(name: string, source: Source)

  datatype DesktopConfig = DesktopConfig(mounts: seq<Mount>, init: string)

  datatype ProxyConfig = ProxyConfig(socketAddr: string, pulseServer: string, allowFileTransfer: bool)

  /** A template; dind holds the mounts of the docker sidecar, and qemu whether its disk image comes by CSI. */
  datatype Template = Template(volumes: seq<Volume>, desktop: Option<DesktopConfig>, proxy: Option<ProxyConfig>,
                               dind: Option<seq<Mount>>, qemu: Option<bool>)

  const TMP := "tmp"
  const RUN := "run"
  const SHM := "shm"
  const TLS := "tls"
  const HOME := "home"
  const CGROUPS := "cgroups"
  const RUN_LOCK := "run-lock"
  const VNC_SOCK := "vnc-sock"
  const PULSE_SOCK := "pulse-sock"
  const DOCKER_DATA := "docker-data"
  const DOCKER_BIN := "docker-bin"
  const KVM := "qemu-kvm"
  const QEMU_DISK := "qemu-disk-image"

  const TMP_PATH := "/tmp"
  const SYSTEMD := "systemd"
  const DEFAULT_SOCKET := "unix:///var/run/kvdi/display.sock"
  const DEFAULT_PULSE := "/run/user/9000/pulse/native"

  function TrimPrefix(s: string, prefix: string): string {
    if prefix <= s then s[|prefix|..] else s
  }

  function TrimSlash(path: string): string {
    if path != "" && path[|path| - 1] == '/' then path[..|path| - 1] else path
  }

  function UserMounts(t: Template): seq<Mount> {
    if t.desktop.Some? then t.desktop.value.mounts else []
  }

  function SocketUri(t: Template): string {
    if t.proxy.Some? && t.proxy.value.socketAddr != "" then t.proxy.value.socketAddr else DEFAULT_SOCKET
  }

  function SocketAddress(t: Template): string {
    TrimPrefix(TrimPrefix(SocketUri(t), "unix://"), "tcp://")
  }

  function PulseServer(t: Template): string {
    if t.proxy.Some? && t.proxy.value.pulseServer != "" then TrimPrefix(t.proxy.value.pulseServer, "unix://")
    else DEFAULT_PULSE
  }

  predicate IsUnixSocket(t: Template) {
    "unix://" <= SocketUri(t)
  }

  predicate IsSystemd(t: Template) {
    t.desktop.Some? && t.desktop.value.init != "" ==> t.desktop.value.init == SYSTEMD
  }

  predicate NeedsEmptyTmpVolume(t: Template) {
    forall m <- UserMounts(t) :: TrimSlash(m.path) != TMP_PATH
  }

  predicate NeedsSocketVolume(t: Template, dir: string -> string) {
    IsUnixSocket(t) && !(TMP_PATH <= dir(SocketAddress(t)))
  }

  predicate NeedsDedicatedPulseVolume(t: Template, dir: string -> string) {
    && !(IsUnixSocket(t) && dir(SocketAddress(t)) == dir(PulseServer(t)))
    && (forall m <- UserMounts(t) :: !(m.path <= PulseServer(t)))
    && !(TMP_PATH <= PulseServer(t)) && !("/run" <= PulseServer(t)) && !("/home" <= PulseServer(t))
  }

  predicate NeedsCgroups(t: Template) {
    IsSystemd(t) || t.qemu.Some?
  }

  function FirstTmp(mounts: seq<Mount>): string {
    if mounts == [] then TMP
    else if TrimSlash(mounts[0].path) == TMP_PATH then mounts[0].name
    else FirstTmp(mounts[1..])
  }

  lemma {:induction false} FirstTmpIsMounted(mounts: seq<Mount>)
    requires exists m <- mounts :: TrimSlash(m.path) == TMP_PATH
    ensures exists m <- mounts :: TrimSlash(m.path) == TMP_PATH && m.name == FirstTmp(mounts)
  {
    if TrimSlash(mounts[0].path) == TMP_PATH {
      assert mounts[0] in mounts;
    } else {
      FirstTmpIsMounted(mounts[1..]);
    }
  }

  /** The first of the user's mounts at /tmp gives the volume. */
  method GetTmpVolume(t: Template) returns (name: string)
    ensures name == TmpVolume(t)
    ensures if NeedsEmptyTmpVolume(t) then name == TMP else AtTmp(UserMounts(t), name)
  {
    if NeedsEmptyTmpVolume(t) {
      return TMP;
    }
    var mounts := UserMounts(t);
    var i := 0;
    while i < |mounts|
      invariant i <= |mounts| && FirstTmp(mounts) == FirstTmp(mounts[i..])
    {
      if TrimSlash(mounts[i].path) == TMP_PATH {
        assert mounts[i] in mounts;
        return mounts[i].name;
      }
      i := i + 1;
    }
    FirstTmpAtTmp(t);
    return TMP;
  }

  function TmpVolume(t: Template): string {
    if NeedsEmptyTmpVolume(t) then TMP else FirstTmp(UserMounts(t))
  }

  function With<T>(s: seq<T>, needed: bool, items: seq<T>): seq<T> {
    if needed then s + items else s
  }

  function SessionVolumes(t: Template, dir: string -> string, session: string, userdata: string): seq<Volume> {
    var s0 := [Volume(RUN, EmptyDir), Volume(RUN_LOCK, EmptyDir), Volume(SHM, HostPath("/dev/shm")),
               Volume(TLS, SecretOf(session))];
    var s1 := With(s0, NeedsEmptyTmpVolume(t), [Volume(TMP, EmptyDir)]);
    var s2 := With(s1, NeedsSocketVolume(t, dir), [Volume(VNC_SOCK, EmptyDir)]);
    var s3 := With(s2, NeedsDedicatedPulseVolume(t, dir), [Volume(PULSE_SOCK, EmptyDir)]);
    s3 + [Volume(HOME, if userdata != "" then Claim(userdata) else EmptyDir)]
  }

  function WithMachineVolumes(t: Template, s4: seq<Volume>): seq<Volume> {
    var s5 := With(s4, NeedsCgroups(t), [Volume(CGROUPS, HostPath("/sys/fs/cgroup"))]);
    var s6 := With(s5, t.qemu.Some?, [Volume(KVM, HostPath("/dev/kvm"))]);
    var s7 := With(s6, t.qemu == Some(true), [Volume(QEMU_DISK, ImageCsi)]);
    With(s7, t.dind.Some?, [Volume(DOCKER_DATA, EmptyDir), Volume(DOCKER_BIN, EmptyDir)])
  }

  /** The volumes kvdi adds to the template's own. */
  function GeneratedVolumes(t: Template, dir: string -> string, session: string, userdata: string): seq<Volume> {
    WithMachineVolumes(t, SessionVolumes(t, dir, session, userdata))
  }

  lemma NoneMore<T>(s: seq<T>, none: seq<T>)
    ensures |none| == 0 ==> s + none == s
  {
  }

  method GetVolumes(t: Template, dir: string -> string, session: string, userdata: string)
    returns (volumes: seq<Volume>)
    ensures volumes == GeneratedVolumes(t, dir, session, userdata) + t.volumes
    ensures forall name :: Declared(volumes, name) <==> Mountable(t, dir, name)
    ensures Distinct(volumes) <==> Distinct(t.volumes) && forall v <- t.volumes :: !Generated(t, dir, v.name)
  {
    volumes := [
      Volume(RUN, EmptyDir), Volume(RUN_LOCK, EmptyDir), Volume(SHM, HostPath("/dev/shm")),
      Volume(TLS, SecretOf(session))
    ];
    if NeedsEmptyTmpVolume(t) {
      volumes := volumes + [Volume(TMP, EmptyDir)];
    }
    if NeedsSocketVolume(t, dir) {
      volumes := volumes + [Volume(VNC_SOCK, EmptyDir)];
    }
    if NeedsDedicatedPulseVolume(t, dir) {
      volumes := volumes + [Volume(PULSE_SOCK, EmptyDir)];
    }
    if userdata != "" {
      volumes := volumes + [Volume(HOME, Claim(userdata))];
    } else {
      volumes := volumes + [Volume(HOME, EmptyDir)];
    }
    ghost var s4 := volumes;
    assert s4 == SessionVolumes(t, dir, session, userdata);
    if NeedsCgroups(t) {
      volumes := volumes + [Volume(CGROUPS, HostPath("/sys/fs/cgroup"))];
    }
    ghost var s5 := volumes;
    assert s5 == With(s4, NeedsCgroups(t), [Volume(CGROUPS, HostPath("/sys/fs/cgroup"))]);
    if t.qemu.Some? {
      volumes := volumes + [Volume(KVM, HostPath("/dev/kvm"))];
      if t.qemu.value {
        volumes := volumes + [Volume(QEMU_DISK, ImageCsi)];
      }
    }
    ghost var s6 := With(s5, t.qemu.Some?, [Volume(KVM, HostPath("/dev/kvm"))]);
    assert volumes == With(s6, t.qemu == Some(true), [Volume(QEMU_DISK, ImageCsi)]);
    if t.dind.Some? {
      volumes := volumes + [Volume(DOCKER_DATA, EmptyDir), Volume(DOCKER_BIN, EmptyDir)];
    }
    assert volumes == WithMachineVolumes(t, s4);
    NoneMore(volumes, t.volumes);
    VolumeNamesMountable(t, dir, session, userdata);
    VolumeNamesDistinct(t, dir, session, userdata);
    if |t.volumes| > 0 {
      volumes := volumes + t.volumes;
    }
  }

  function SessionMounts(t: Template, dir: string -> string, user: string): seq<Mount> {
    var s0 := [Mount(RUN, "/run"), Mount(RUN_LOCK, "/run/lock"), Mount(SHM, "/dev/shm"), Mount(HOME, "/home/" + user)];
    var s1 := With(s0, NeedsEmptyTmpVolume(t), [Mount(TMP, TMP_PATH)]);
    var s2 := With(s1, NeedsSocketVolume(t, dir), [Mount(VNC_SOCK, dir(SocketAddress(t)))]);
    With(s2, NeedsDedicatedPulseVolume(t, dir), [Mount(PULSE_SOCK, dir(PulseServer(t)))])
  }

  function WithMachineMounts(t: Template, s3: seq<Mount>): seq<Mount> {
    var s4 := With(s3, NeedsCgroups(t), [Mount(CGROUPS, "/sys/fs/cgroup")]);
    var s5 := With(s4, t.qemu.Some?, [Mount(KVM, "/dev/kvm")]);
    var s6 := With(s5, t.qemu == Some(true), [Mount(QEMU_DISK, "/disk")]);
    With(s6, t.dind.Some?, [Mount(DOCKER_BIN, "/usr/local/docker/bin")])
  }

  function DesktopMounts(t: Template, dir: string -> string, user: string): seq<Mount> {
    With(WithMachineMounts(t, SessionMounts(t, dir, user)), t.qemu.None?, UserMounts(t))
  }

  method GetDesktopVolumeMounts(t: Template, dir: string -> string, user: string) returns (mounts: seq<Mount>)
    ensures mounts == DesktopMounts(t, dir, user)
    ensures AllMountable(t, dir, mounts) <==> (t.qemu.None? ==> AllMountable(t, dir, UserMounts(t)))
  {
    DesktopMountable(t, dir, user);
    mounts := [Mount(RUN, "/run"), Mount(RUN_LOCK, "/run/lock"), Mount(SHM, "/dev/shm"), Mount(HOME, "/home/" + user)];
    if NeedsEmptyTmpVolume(t) {
      mounts := mounts + [Mount(TMP, TMP_PATH)];
    }
    if NeedsSocketVolume(t, dir) {
      mounts := mounts + [Mount(VNC_SOCK, dir(SocketAddress(t)))];
    }
    if NeedsDedicatedPulseVolume(t, dir) {
      mounts := mounts + [Mount(PULSE_SOCK, dir(PulseServer(t)))];
    }
    assert mounts == SessionMounts(t, dir, user);
    if NeedsCgroups(t) {
      mounts := mounts + [Mount(CGROUPS, "/sys/fs/cgroup")];
    }
    if t.qemu.Some? {
      mounts := mounts + [Mount(KVM, "/dev/kvm")];
      if t.qemu.value {
        mounts := mounts + [Mount(QEMU_DISK, "/disk")];
      }
    }
    if t.dind.Some? {
      mounts := mounts + [Mount(DOCKER_BIN, "/usr/local/docker/bin")];
    }
    if t.qemu.None? && t.desktop.Some? && |t.desktop.value.mounts| > 0 {
      mounts := mounts + t.desktop.value.mounts;
    }
  }

  function ProxyMounts(t: Template, dir: string -> string): seq<Mount> {
    var s0 := [Mount(TmpVolume(t), TMP_PATH), Mount(RUN, "/run"), Mount(RUN_LOCK, "/run/lock"),
               Mount(TLS, "/etc/kvdi/tls/server")];
    var s1 := With(s0, NeedsSocketVolume(t, dir), [Mount(VNC_SOCK, dir(SocketAddress(t)))]);
    var s2 := With(s1, NeedsDedicatedPulseVolume(t, dir), [Mount(PULSE_SOCK, dir(PulseServer(t)))]);
    var s3 := With(s2, t.proxy.Some? && t.proxy.value.allowFileTransfer, [Mount(HOME, "/mnt/home")]);
    s3
  }

  function DindMounts(t: Template): seq<Mount>
    requires t.dind.Some?
  {
    t.dind.value + [Mount(RUN, "/run"), Mount(DOCKER_DATA, "/var/lib/docker")]
  }

  function InitMounts(t: Template): seq<Mount> {
    if t.qemu == Some(false) then [Mount(RUN, "/run")]
    else if t.dind.Some? then [Mount(DOCKER_BIN, "/usr/local/docker/bin")]
    else []
  }

  /** Every mount of every container and init container of the pod. */
  function PodMounts(t: Template, dir: string -> string, user: string): seq<Mount> {
    InitMounts(t) + ProxyMounts(t, dir) + DesktopMounts(t, dir, user) + if t.dind.Some? then DindMounts(t) else []
  }

  predicate Declared(volumes: seq<Volume>, name: string) {
    exists v <- volumes :: v.name == name
  }

  /** The names kvdi takes for itself. */
  predicate Generated(t: Template, dir: string -> string, name: string) {
    || name in {RUN, RUN_LOCK, SHM, TLS, HOME}
    || (NeedsEmptyTmpVolume(t) && name == TMP)
    || (NeedsSocketVolume(t, dir) && name == VNC_SOCK)
    || (NeedsDedicatedPulseVolume(t, dir) && name == PULSE_SOCK)
    || (NeedsCgroups(t) && name == CGROUPS)
    || (t.qemu.Some? && name == KVM)
    || (t.qemu == Some(true) && name == QEMU_DISK)
    || (t.dind.Some? && name in {DOCKER_DATA, DOCKER_BIN})
  }

  lemma DeclaredWith(volumes: seq<Volume>, needed: bool, more: seq<Volume>, name: string)
    ensures Declared(With(volumes, needed, more), name) <==> Declared(volumes, name) || (needed && Declared(more, name))
  {
    if needed {
      if Declared(volumes, name) {
        var v :| v in volumes && v.name == name;
        assert v in volumes + more;
      } else if Declared(more, name) {
        var v :| v in more && v.name == name;
        assert v in volumes + more;
      }
    }
  }

  lemma OneMore(volumes: seq<Volume>, needed: bool, v: Volume, name: string) returns (with: seq<Volume>)
    ensures with == With(volumes, needed, [v])
    ensures Declared(with, name) <==> Declared(volumes, name) || (needed && name == v.name)
  {
    with := With(volumes, needed, [v]);
    DeclaredWith(volumes, needed, [v], name);
    assert v in [v];
  }

  lemma FirstFour(a: Volume, b: Volume, c: Volume, d: Volume, name: string)
    ensures Declared([a, b, c, d], name) <==> name in {a.name, b.name, c.name, d.name}
  {
    assert a in [a, b, c, d] && b in [a, b, c, d] && c in [a, b, c, d] && d in [a, b, c, d];
  }

  lemma DeclaredForSession(t: Template, dir: string -> string, session: string, userdata: string, name: string)
    ensures Declared(SessionVolumes(t, dir, session, userdata), name)
       <==> || name in {RUN, RUN_LOCK, SHM, TLS, HOME}
            || (NeedsEmptyTmpVolume(t) && name == TMP)
            || (NeedsSocketVolume(t, dir) && name == VNC_SOCK)
            || (NeedsDedicatedPulseVolume(t, dir) && name == PULSE_SOCK)
  {
    var shm, tls := Volume(SHM, HostPath("/dev/shm")), Volume(TLS, SecretOf(session));
    FirstFour(Volume(RUN, EmptyDir), Volume(RUN_LOCK, EmptyDir), shm, tls, name);
    var s := [Volume(RUN, EmptyDir), Volume(RUN_LOCK, EmptyDir), shm, tls];
    s := OneMore(s, NeedsEmptyTmpVolume(t), Volume(TMP, EmptyDir), name);
    s := OneMore(s, NeedsSocketVolume(t, dir), Volume(VNC_SOCK, EmptyDir), name);
    s := OneMore(s, NeedsDedicatedPulseVolume(t, dir), Volume(PULSE_SOCK, EmptyDir), name);
    s := OneMore(s, true, Volume(HOME, if userdata != "" then Claim(userdata) else EmptyDir), name);
  }

  lemma DeclaredForMachine(t: Template, volumes: seq<Volume>, name: string)
    ensures Declared(WithMachineVolumes(t, volumes), name)
       <==> || Declared(volumes, name)
            || (NeedsCgroups(t) && name == CGROUPS)
            || (t.qemu.Some? && name == KVM)
            || (t.qemu == Some(true) && name == QEMU_DISK)
            || (t.dind.Some? && name in {DOCKER_DATA, DOCKER_BIN})
  {
    var s := OneMore(volumes, NeedsCgroups(t), Volume(CGROUPS, HostPath("/sys/fs/cgroup")), name);
    s := OneMore(s, t.qemu.Some?, Volume(KVM, HostPath("/dev/kvm")), name);
    s := OneMore(s, t.qemu == Some(true), Volume(QEMU_DISK, ImageCsi), name);
    var docker := [Volume(DOCKER_DATA, EmptyDir), Volume(DOCKER_BIN, EmptyDir)];
    DeclaredWith(s, t.dind.Some?, docker, name);
    assert docker[0] in docker && docker[1] in docker;
  }

  lemma DeclaredGenerated(t: Template, dir: string -> string, session: string, userdata: string, name: string)
    ensures Declared(GeneratedVolumes(t, dir, session, userdata), name) <==> Generated(t, dir, name)
  {
    DeclaredForSession(t, dir, session, userdata, name);
    DeclaredForMachine(t, SessionVolumes(t, dir, session, userdata), name);
  }

  /** A name that a template may mount: one of kvdi's, or one of its own volumes. */
  predicate Mountable(t: Template, dir: string -> string, name: string) {
    Generated(t, dir, name) || Declared(t.volumes, name)
  }

  predicate AllMountable(t: Template, dir: string -> string, mounts: seq<Mount>) {
    forall m <- mounts :: Mountable(t, dir, m.name)
  }

  lemma MountableWith(t: Template, dir: string -> string, mounts: seq<Mount>, needed: bool, more: seq<Mount>)
    ensures AllMountable(t, dir, With(mounts, needed, more))
       <==> AllMountable(t, dir, mounts) && (needed ==> AllMountable(t, dir, more))
  {
    if needed && AllMountable(t, dir, mounts + more) {
      assert forall m <- mounts :: m in mounts + more;
      assert forall m <- more :: m in mounts + more;
    }
  }

  lemma DesktopMountable(t: Template, dir: string -> string, user: string)
    ensures AllMountable(t, dir, DesktopMounts(t, dir, user))
      <==> (t.qemu.None? ==> AllMountable(t, dir, UserMounts(t)))
  {
    SessionMountable(t, dir, user);
    MachineMountable(t, dir, SessionMounts(t, dir, user));
    MountableWith(t, dir, WithMachineMounts(t, SessionMounts(t, dir, user)), t.qemu.None?, UserMounts(t));
  }

  lemma SessionMountable(t: Template, dir: string -> string, user: string)
    ensures AllMountable(t, dir, SessionMounts(t, dir, user))
  {
    var s := [Mount(RUN, "/run"), Mount(RUN_LOCK, "/run/lock"), Mount(SHM, "/dev/shm"), Mount(HOME, "/home/" + user)];
    s := GeneratedMount(t, dir, s, NeedsEmptyTmpVolume(t), Mount(TMP, TMP_PATH));
    s := GeneratedMount(t, dir, s, NeedsSocketVolume(t, dir), Mount(VNC_SOCK, dir(SocketAddress(t))));
    s := GeneratedMount(t, dir, s, NeedsDedicatedPulseVolume(t, dir), Mount(PULSE_SOCK, dir(PulseServer(t))));
  }

  lemma MachineMountable(t: Template, dir: string -> string, mounts: seq<Mount>)
    requires AllMountable(t, dir, mounts)
    ensures AllMountable(t, dir, WithMachineMounts(t, mounts))
  {
    var s := GeneratedMount(t, dir, mounts, NeedsCgroups(t), Mount(CGROUPS, "/sys/fs/cgroup"));
    s := GeneratedMount(t, dir, s, t.qemu.Some?, Mount(KVM, "/dev/kvm"));
    s := GeneratedMount(t, dir, s, t.qemu == Some(true), Mount(QEMU_DISK, "/disk"));
    s := GeneratedMount(t, dir, s, t.dind.Some?, Mount(DOCKER_BIN, "/usr/local/docker/bin"));
  }

  lemma GeneratedMount(t: Template, dir: string -> string, mounts: seq<Mount>, needed: bool, m: Mount)
    returns (with: seq<Mount>)
    requires AllMountable(t, dir, mounts) && (needed ==> Generated(t, dir, m.name))
    ensures with == With(mounts, needed, [m]) && AllMountable(t, dir, with)
  {
    with := With(mounts, needed, [m]);
    MountableWith(t, dir, mounts, needed, [m]);
  }

  lemma OneMoreGenerated(t: Template, dir: string -> string, mounts: seq<Mount>, needed: bool, m: Mount)
    returns (with: seq<Mount>)
    requires needed ==> Generated(t, dir, m.name)
    ensures with == With(mounts, needed, [m]) && (AllMountable(t, dir, with) <==> AllMountable(t, dir, mounts))
  {
    with := With(mounts, needed, [m]);
    MountableWith(t, dir, mounts, needed, [m]);
  }

  lemma FirstProxyMounts(t: Template, dir: string -> string, tmp: Mount)
    ensures AllMountable(t, dir,
      [tmp, Mount(RUN, "/run"), Mount(RUN_LOCK, "/run/lock"), Mount(TLS, "/etc/kvdi/tls/server")])
       <==> Mountable(t, dir, tmp.name)
  {
    assert tmp in [tmp, Mount(RUN, "/run"), Mount(RUN_LOCK, "/run/lock"), Mount(TLS, "/etc/kvdi/tls/server")];
  }

  lemma ProxyMountable(t: Template, dir: string -> string)
    ensures AllMountable(t, dir, ProxyMounts(t, dir)) <==> Mountable(t, dir, TmpVolume(t))
  {
    var tmp := Mount(TmpVolume(t), TMP_PATH);
    FirstProxyMounts(t, dir, tmp);
    var s := [tmp, Mount(RUN, "/run"), Mount(RUN_LOCK, "/run/lock"), Mount(TLS, "/etc/kvdi/tls/server")];
    s := OneMoreGenerated(t, dir, s, NeedsSocketVolume(t, dir), Mount(VNC_SOCK, dir(SocketAddress(t))));
    s := OneMoreGenerated(t, dir, s, NeedsDedicatedPulseVolume(t, dir), Mount(PULSE_SOCK, dir(PulseServer(t))));
    s := OneMoreGenerated(t, dir, s, t.proxy.Some? && t.proxy.value.allowFileTransfer, Mount(HOME, "/mnt/home"));
  }

  /** What a template must see to: the mounts that reach its containers name volumes. A QEMU template's own desktop
      mounts do not, except that the proxy mounts the one at /tmp. */
  predicate UserMountsMountable(t: Template, dir: string -> string) {
    && (t.qemu.None? ==> AllMountable(t, dir, UserMounts(t)))
    && (t.qemu.Some? && !NeedsEmptyTmpVolume(t) ==> Mountable(t, dir, FirstTmp(UserMounts(t))))
    && (t.dind.Some? ==> AllMountable(t, dir, t.dind.value))
  }

  lemma PodMountable(t: Template, dir: string -> string, user: string)
    ensures AllMountable(t, dir, PodMounts(t, dir, user)) <==> UserMountsMountable(t, dir)
  {
    var dind := if t.dind.Some? then DindMounts(t) else [];
    MountableWith(t, dir, InitMounts(t), true, ProxyMounts(t, dir));
    MountableWith(t, dir, InitMounts(t) + ProxyMounts(t, dir), true, DesktopMounts(t, dir, user));
    MountableWith(t, dir, InitMounts(t) + ProxyMounts(t, dir) + DesktopMounts(t, dir, user), true, dind);
    ProxyMountable(t, dir);
    DesktopMountable(t, dir, user);
    if t.dind.Some? {
      MountableWith(t, dir, t.dind.value, true, [Mount(RUN, "/run"), Mount(DOCKER_DATA, "/var/lib/docker")]);
    }
    if t.qemu.None? && !NeedsEmptyTmpVolume(t) {
      FirstTmpIsMounted(UserMounts(t));
    }
  }

  lemma VolumeNamesMountable(t: Template, dir: string -> string, session: string, userdata: string)
    ensures forall name ::
      Declared(GeneratedVolumes(t, dir, session, userdata) + t.volumes, name) <==> Mountable(t, dir, name)
  {
    forall name
      ensures Declared(GeneratedVolumes(t, dir, session, userdata) + t.volumes, name) <==> Mountable(t, dir, name)
    {
      DeclaredGenerated(t, dir, session, userdata, name);
      DeclaredWith(GeneratedVolumes(t, dir, session, userdata), true, t.volumes, name);
    }
  }

  /** Every mount of every container names a volume of the pod if and only if the template's own mounts that reach a
      container do. */
  lemma MountsAreDeclared(t: Template, dir: string -> string, session: string, userdata: string, user: string)
    ensures (forall m <- PodMounts(t, dir, user) ::
      Declared(GeneratedVolumes(t, dir, session, userdata) + t.volumes, m.name))
       <==> UserMountsMountable(t, dir)
  {
    PodMountable(t, dir, user);
    VolumeNamesMountable(t, dir, session, userdata);
  }

  // ---- one volume to a name

  predicate Distinct(volumes: seq<Volume>) {
    forall i, j :: 0 <= i < j < |volumes| ==> volumes[i].name != volumes[j].name
  }

  /** The order in which kvdi adds its volumes. */
  function Rank(name: string): nat {
    if name == RUN then 0 else if name == RUN_LOCK then 1 else if name == SHM then 2 else if name == TLS then 3
    else if name == TMP then 4 else if name == VNC_SOCK then 5 else if name == PULSE_SOCK then 6
    else if name == HOME then 7 else if name == CGROUPS then 8 else if name == KVM then 9
    else if name == QEMU_DISK then 10 else if name == DOCKER_DATA then 11 else 12
  }

  predicate RankedBelow(volumes: seq<Volume>, bound: nat) {
    && (forall i :: 0 <= i < |volumes| ==> Rank(volumes[i].name) < bound)
    && forall i, j :: 0 <= i < j < |volumes| ==> Rank(volumes[i].name) < Rank(volumes[j].name)
  }

  lemma TwoMore(volumes: seq<Volume>, v: Volume, w: Volume)
    ensures volumes + [v] + [w] == volumes + [v, w]
  {
  }

  lemma Ranks()
    ensures Rank(RUN) == 0 && Rank(RUN_LOCK) == 1 && Rank(SHM) == 2 && Rank(TLS) == 3 && Rank(TMP) == 4
    ensures Rank(VNC_SOCK) == 5 && Rank(PULSE_SOCK) == 6 && Rank(HOME) == 7 && Rank(CGROUPS) == 8 && Rank(KVM) == 9
    ensures Rank(QEMU_DISK) == 10 && Rank(DOCKER_DATA) == 11 && Rank(DOCKER_BIN) == 12
  {
  }

  lemma NextRank(volumes: seq<Volume>, needed: bool, v: Volume, rank: nat) returns (with: seq<Volume>)
    requires RankedBelow(volumes, rank) && Rank(v.name) == rank
    ensures with == With(volumes, needed, [v]) && RankedBelow(with, rank + 1)
  {
    with := With(volumes, needed, [v]);
  }

  lemma FirstFourRanked(session: string)
    ensures RankedBelow([Volume(RUN, EmptyDir), Volume(RUN_LOCK, EmptyDir), Volume(SHM, HostPath("/dev/shm")),
                         Volume(TLS, SecretOf(session))], 4)
  {
  }

  lemma SessionRanked(t: Template, dir: string -> string, session: string, userdata: string)
    ensures RankedBelow(SessionVolumes(t, dir, session, userdata), 8)
  {
    Ranks();
    FirstFourRanked(session);
    var s := [Volume(RUN, EmptyDir), Volume(RUN_LOCK, EmptyDir), Volume(SHM, HostPath("/dev/shm")),
              Volume(TLS, SecretOf(session))];
    s := NextRank(s, NeedsEmptyTmpVolume(t), Volume(TMP, EmptyDir), 4);
    s := NextRank(s, NeedsSocketVolume(t, dir), Volume(VNC_SOCK, EmptyDir), 5);
    s := NextRank(s, NeedsDedicatedPulseVolume(t, dir), Volume(PULSE_SOCK, EmptyDir), 6);
    s := NextRank(s, true, Volume(HOME, if userdata != "" then Claim(userdata) else EmptyDir), 7);
  }

  lemma MachineRanked(t: Template, volumes: seq<Volume>)
    requires RankedBelow(volumes, 8)
    ensures RankedBelow(WithMachineVolumes(t, volumes), 13)
  {
    Ranks();
    var s := NextRank(volumes, NeedsCgroups(t), Volume(CGROUPS, HostPath("/sys/fs/cgroup")), 8);
    s := NextRank(s, t.qemu.Some?, Volume(KVM, HostPath("/dev/kvm")), 9);
    s := NextRank(s, t.qemu == Some(true), Volume(QEMU_DISK, ImageCsi), 10);
    var data, bin := Volume(DOCKER_DATA, EmptyDir), Volume(DOCKER_BIN, EmptyDir);
    var one := NextRank(s, t.dind.Some?, data, 11);
    var two := NextRank(one, t.dind.Some?, bin, 12);
    TwoMore(s, data, bin);
  }

  lemma GeneratedDistinct(t: Template, dir: string -> string, session: string, userdata: string)
    ensures Distinct(GeneratedVolumes(t, dir, session, userdata))
  {
    SessionRanked(t, dir, session, userdata);
    MachineRanked(t, SessionVolumes(t, dir, session, userdata));
  }

  lemma DistinctAppend(a: seq<Volume>, b: seq<Volume>)
    requires Distinct(a)
    ensures Distinct(a + b) <==> Distinct(b) && forall v <- b :: !Declared(a, v.name)
  {
    if Distinct(a + b) {
      forall i, j | 0 <= i < j < |b| ensures b[i].name != b[j].name {
        assert (a + b)[|a| + i] == b[i] && (a + b)[|a| + j] == b[j];
      }
      forall v | v in b ensures !Declared(a, v.name) {
        var j :| 0 <= j < |b| && b[j] == v;
        assert (a + b)[|a| + j] == v;
        forall w | w in a ensures w.name != v.name {
          var i :| 0 <= i < |a| && a[i] == w;
          assert (a + b)[i] == w;
        }
      }
    }
  }

  /** The pod's volume names are all different exactly when the template's are and it takes none of kvdi's. */
  lemma VolumeNamesDistinct(t: Template, dir: string -> string, session: string, userdata: string)
    ensures Distinct(GeneratedVolumes(t, dir, session, userdata) + t.volumes)
       <==> Distinct(t.volumes) && forall v <- t.volumes :: !Generated(t, dir, v.name)
  {
    GeneratedDistinct(t, dir, session, userdata);
    DistinctAppend(GeneratedVolumes(t, dir, session, userdata), t.volumes);
    forall name ensures Declared(GeneratedVolumes(t, dir, session, userdata), name) <==> Generated(t, dir, name) {
      DeclaredGenerated(t, dir, session, userdata, name);
    }
  }

  // ---- the proxy's /tmp is the desktop's

  predicate AtTmp(mounts: seq<Mount>, name: string) {
    exists m <- mounts :: m.name == name && TrimSlash(m.path) == TMP_PATH
  }

  lemma AtTmpWith(mounts: seq<Mount>, needed: bool, more: seq<Mount>, name: string)
    ensures AtTmp(With(mounts, needed, more), name) <==> AtTmp(mounts, name) || (needed && AtTmp(more, name))
  {
    if needed {
      if AtTmp(mounts, name) {
        var m :| m in mounts && m.name == name && TrimSlash(m.path) == TMP_PATH;
        assert m in mounts + more;
      } else if AtTmp(more, name) {
        var m :| m in more && m.name == name && TrimSlash(m.path) == TMP_PATH;
        assert m in mounts + more;
      }
    }
  }

  lemma OneMoreMount(mounts: seq<Mount>, needed: bool, m: Mount, name: string) returns (with: seq<Mount>)
    ensures with == With(mounts, needed, [m])
    ensures AtTmp(with, name) <==> AtTmp(mounts, name) || (needed && m.name == name && TrimSlash(m.path) == TMP_PATH)
  {
    with := With(mounts, needed, [m]);
    AtTmpWith(mounts, needed, [m], name);
    assert m in [m];
  }

  lemma NotTmp(path: string)
    requires |path| >= 2 && path[1] != 't'
    ensures TrimSlash(path) != TMP_PATH
  {
    assert TMP_PATH[1] == 't';
  }

  lemma NotUnderTmp(path: string)
    requires !(TMP_PATH <= path)
    ensures TrimSlash(path) != TMP_PATH
  {
  }

  lemma FixedMountsNotAtTmp(user: string, name: string)
    ensures !AtTmp([Mount(RUN, "/run"), Mount(RUN_LOCK, "/run/lock"), Mount(SHM, "/dev/shm"),
                    Mount(HOME, "/home/" + user)], name)
  {
    NotTmp("/run");
    NotTmp("/run/lock");
    NotTmp("/dev/shm");
    NotTmp("/home/" + user);
  }

  lemma FirstTmpAtTmp(t: Template)
    ensures !NeedsEmptyTmpVolume(t) ==> AtTmp(UserMounts(t), FirstTmp(UserMounts(t)))
    ensures NeedsEmptyTmpVolume(t) ==> forall name :: !AtTmp(UserMounts(t), name)
  {
    if !NeedsEmptyTmpVolume(t) {
      FirstTmpIsMounted(UserMounts(t));
    }
  }

  lemma SessionAtTmp(t: Template, dir: string -> string, user: string, name: string)
    ensures AtTmp(SessionMounts(t, dir, user), name)
       <==> || (NeedsEmptyTmpVolume(t) && name == TMP)
            || (NeedsDedicatedPulseVolume(t, dir) && name == PULSE_SOCK && TrimSlash(dir(PulseServer(t))) == TMP_PATH)
  {
    FixedMountsNotAtTmp(user, name);
    var s := [Mount(RUN, "/run"), Mount(RUN_LOCK, "/run/lock"), Mount(SHM, "/dev/shm"), Mount(HOME, "/home/" + user)];
    s := OneMoreMount(s, NeedsEmptyTmpVolume(t), Mount(TMP, TMP_PATH), name);
    s := OneMoreMount(s, NeedsSocketVolume(t, dir), Mount(VNC_SOCK, dir(SocketAddress(t))), name);
    if NeedsSocketVolume(t, dir) {
      NotUnderTmp(dir(SocketAddress(t)));
    }
    s := OneMoreMount(s, NeedsDedicatedPulseVolume(t, dir), Mount(PULSE_SOCK, dir(PulseServer(t))), name);
  }

  lemma MachineNotAtTmp(t: Template, mounts: seq<Mount>, name: string)
    ensures AtTmp(WithMachineMounts(t, mounts), name) <==> AtTmp(mounts, name)
  {
    NotTmp("/sys/fs/cgroup");
    NotTmp("/dev/kvm");
    NotTmp("/disk");
    NotTmp("/usr/local/docker/bin");
    var s := OneMoreMount(mounts, NeedsCgroups(t), Mount(CGROUPS, "/sys/fs/cgroup"), name);
    s := OneMoreMount(s, t.qemu.Some?, Mount(KVM, "/dev/kvm"), name);
    s := OneMoreMount(s, t.qemu == Some(true), Mount(QEMU_DISK, "/disk"), name);
    s := OneMoreMount(s, t.dind.Some?, Mount(DOCKER_BIN, "/usr/local/docker/bin"), name);
  }

  /** The volume the proxy has at /tmp is the desktop's /tmp, unless a QEMU template brings its own: then the desktop
      container has none, and a display socket there is out of the proxy's reach. The last case is the dedicated pulse
      volume standing in for it. */
  lemma TmpIsShared(t: Template, dir: string -> string, user: string)
    ensures AtTmp(DesktopMounts(t, dir, user), TmpVolume(t))
       <==> || t.qemu.None?
            || NeedsEmptyTmpVolume(t)
            || (NeedsDedicatedPulseVolume(t, dir) && TmpVolume(t) == PULSE_SOCK
              && TrimSlash(dir(PulseServer(t))) == TMP_PATH)
  {
    var name := TmpVolume(t);
    SessionAtTmp(t, dir, user, name);
    MachineNotAtTmp(t, SessionMounts(t, dir, user), name);
    AtTmpWith(WithMachineMounts(t, SessionMounts(t, dir, user)), t.qemu.None?, UserMounts(t), name);
    FirstTmpAtTmp(t);
  }

  // ---- what stands behind the volumes, and what the containers share

  /** What kvdi puts behind each name of its own: the user's claim behind the home, if there is one. */
  function SourceOf(name: string, session: string, userdata: string): Source {
    if name == "home" then if userdata != "" then Claim(userdata) else EmptyDir
    else if name == "tls" then SecretOf(session)
    else if name == "shm" then HostPath("/dev/shm")
    else if name == "cgroups" then HostPath("/sys/fs/cgroup")
    else if name == "qemu-kvm" then HostPath("/dev/kvm")
    else if name == "qemu-disk-image" then ImageCsi
    else EmptyDir
  }

  predicate Sourced(volumes: seq<Volume>, session: string, userdata: string) {
    forall v <- volumes :: v.source == SourceOf(v.name, session, userdata)
  }

  lemma SourcedWith(volumes: seq<Volume>, needed: bool, v: Volume, session: string, userdata: string)
    returns (with: seq<Volume>)
    requires Sourced(volumes, session, userdata) && v.source == SourceOf(v.name, session, userdata)
    ensures with == With(volumes, needed, [v]) && Sourced(with, session, userdata)
  {
    with := With(volumes, needed, [v]);
  }

  lemma SourcesByName(session: string, userdata: string)
    ensures SourceOf(HOME, session, userdata) == if userdata != "" then Claim(userdata) else EmptyDir
    ensures SourceOf(TMP, session, userdata) == SourceOf(VNC_SOCK, session, userdata) == EmptyDir
    ensures SourceOf(PULSE_SOCK, session, userdata) == EmptyDir
  {
  }

  lemma FirstFourSourced(session: string, userdata: string)
    ensures Sourced([Volume(RUN, EmptyDir), Volume(RUN_LOCK, EmptyDir), Volume(SHM, HostPath("/dev/shm")),
                     Volume(TLS, SecretOf(session))], session, userdata)
  {
  }

  lemma SessionSourced(t: Template, dir: string -> string, session: string, userdata: string)
    ensures Sourced(SessionVolumes(t, dir, session, userdata), session, userdata)
  {
    var s := [Volume(RUN, EmptyDir), Volume(RUN_LOCK, EmptyDir), Volume(SHM, HostPath("/dev/shm")),
              Volume(TLS, SecretOf(session))];
    SourcesByName(session, userdata);
    FirstFourSourced(session, userdata);
    s := SourcedWith(s, NeedsEmptyTmpVolume(t), Volume(TMP, EmptyDir), session, userdata);
    s := SourcedWith(s, NeedsSocketVolume(t, dir), Volume(VNC_SOCK, EmptyDir), session, userdata);
    s := SourcedWith(s, NeedsDedicatedPulseVolume(t, dir), Volume(PULSE_SOCK, EmptyDir), session, userdata);
    var home := Volume(HOME, if userdata != "" then Claim(userdata) else EmptyDir);
    s := SourcedWith(s, true, home, session, userdata);
  }

  lemma MachineSourced(t: Template, volumes: seq<Volume>, session: string, userdata: string)
    requires Sourced(volumes, session, userdata)
    ensures Sourced(WithMachineVolumes(t, volumes), session, userdata)
  {
    var s := SourcedWith(volumes, NeedsCgroups(t), Volume(CGROUPS, HostPath("/sys/fs/cgroup")), session, userdata);
    s := SourcedWith(s, t.qemu.Some?, Volume(KVM, HostPath("/dev/kvm")), session, userdata);
    s := SourcedWith(s, t.qemu == Some(true), Volume(QEMU_DISK, ImageCsi), session, userdata);
    var data, bin := Volume(DOCKER_DATA, EmptyDir), Volume(DOCKER_BIN, EmptyDir);
    var one := SourcedWith(s, t.dind.Some?, data, session, userdata);
    var two := SourcedWith(one, t.dind.Some?, bin, session, userdata);
    TwoMore(s, data, bin);
  }

  lemma ClaimsSourced(volumes: seq<Volume>, session: string, userdata: string)
    requires Sourced(volumes, session, userdata)
    ensures forall v <- volumes :: v.source.Claim? <==> v.name == "home" && userdata != ""
    ensures forall v <- volumes :: v.source.Claim? ==> v.source.name == userdata
  {
    forall v | v in volumes
      ensures v.source.Claim? <==> v.name == "home" && userdata != ""
      ensures v.source.Claim? ==> v.source.name == userdata
    {
      assert v.source == SourceOf(v.name, session, userdata);
    }
  }

  /** Every volume of kvdi's own has its source, and the pod claims nothing of its own accord but the user's data. */
  lemma VolumesAreSourced(t: Template, dir: string -> string, session: string, userdata: string)
    ensures var volumes := GeneratedVolumes(t, dir, session, userdata);
      && (forall v <- volumes :: v.source == SourceOf(v.name, session, userdata))
      && (forall v <- volumes :: v.source.Claim? <==> v.name == "home" && userdata != "")
      && (forall v <- volumes :: v.source.Claim? ==> v.source.name == userdata)
  {
    SessionSourced(t, dir, session, userdata);
    MachineSourced(t, SessionVolumes(t, dir, session, userdata), session, userdata);
    ClaimsSourced(GeneratedVolumes(t, dir, session, userdata), session, userdata);
  }

  lemma InWith<T>(s: seq<T>, needed: bool, item: T, x: T)
    ensures x in With(s, needed, [item]) <==> x in s || (needed && x == item)
  {
  }

  lemma InSessionMounts(t: Template, dir: string -> string, user: string, m: Mount)
    ensures m in SessionMounts(t, dir, user)
       <==> || m in {Mount(RUN, "/run"), Mount(RUN_LOCK, "/run/lock"), Mount(SHM, "/dev/shm")}
            || m == Mount(HOME, "/home/" + user)
            || (NeedsEmptyTmpVolume(t) && m == Mount(TMP, "/tmp"))
            || (NeedsSocketVolume(t, dir) && m == Mount(VNC_SOCK, dir(SocketAddress(t))))
            || (NeedsDedicatedPulseVolume(t, dir) && m == Mount(PULSE_SOCK, dir(PulseServer(t))))
  {
    var s0 := [Mount(RUN, "/run"), Mount(RUN_LOCK, "/run/lock"), Mount(SHM, "/dev/shm"), Mount(HOME, "/home/" + user)];
    var s1 := With(s0, NeedsEmptyTmpVolume(t), [Mount(TMP, TMP_PATH)]);
    InWith(s0, NeedsEmptyTmpVolume(t), Mount(TMP, TMP_PATH), m);
    var vnc := Mount(VNC_SOCK, dir(SocketAddress(t)));
    InWith(s1, NeedsSocketVolume(t, dir), vnc, m);
    InWith(With(s1, NeedsSocketVolume(t, dir), [vnc]), NeedsDedicatedPulseVolume(t, dir),
           Mount(PULSE_SOCK, dir(PulseServer(t))), m);
  }

  lemma InProxyMounts(t: Template, dir: string -> string, m: Mount)
    ensures m in ProxyMounts(t, dir)
       <==> || m in {Mount(TmpVolume(t), "/tmp"), Mount(RUN, "/run"), Mount(RUN_LOCK, "/run/lock")}
            || m == Mount(TLS, "/etc/kvdi/tls/server")
            || (NeedsSocketVolume(t, dir) && m == Mount(VNC_SOCK, dir(SocketAddress(t))))
            || (NeedsDedicatedPulseVolume(t, dir) && m == Mount(PULSE_SOCK, dir(PulseServer(t))))
            || (t.proxy.Some? && t.proxy.value.allowFileTransfer && m == Mount(HOME, "/mnt/home"))
  {
    var s0 := [Mount(TmpVolume(t), TMP_PATH), Mount(RUN, "/run"), Mount(RUN_LOCK, "/run/lock"),
               Mount(TLS, "/etc/kvdi/tls/server")];
    var vnc, pulse := Mount(VNC_SOCK, dir(SocketAddress(t))), Mount(PULSE_SOCK, dir(PulseServer(t)));
    var s1 := With(s0, NeedsSocketVolume(t, dir), [vnc]);
    InWith(s0, NeedsSocketVolume(t, dir), vnc, m);
    InWith(s1, NeedsDedicatedPulseVolume(t, dir), pulse, m);
    InWith(With(s1, NeedsDedicatedPulseVolume(t, dir), [pulse]),
           t.proxy.Some? && t.proxy.value.allowFileTransfer, Mount(HOME, "/mnt/home"), m);
  }

  lemma SessionMountsStay(t: Template, dir: string -> string, user: string, m: Mount)
    requires m in SessionMounts(t, dir, user)
    ensures m in DesktopMounts(t, dir, user)
  {
    var s := SessionMounts(t, dir, user);
    assert s <= With(s, NeedsCgroups(t), [Mount(CGROUPS, "/sys/fs/cgroup")]) <= WithMachineMounts(t, s);
  }

  /** A template runs systemd unless it names another init system. */
  lemma CgroupsAreNeeded(t: Template)
    ensures NeedsCgroups(t) <==> t.qemu.Some? || t.desktop.None? || t.desktop.value.init in {"", "systemd"}
  {
  }

  /** Every mount of the desktop container, and the condition for each. */
  lemma InDesktopMounts(t: Template, dir: string -> string, user: string, m: Mount)
    ensures m in DesktopMounts(t, dir, user)
       <==> || m in SessionMounts(t, dir, user)
            || (m == Mount("cgroups", "/sys/fs/cgroup")
                && (t.qemu.Some? || t.desktop.None? || t.desktop.value.init in {"", "systemd"}))
            || (m == Mount("qemu-kvm", "/dev/kvm") && t.qemu.Some?)
            || (m == Mount("qemu-disk-image", "/disk") && t.qemu == Some(true))
            || (m == Mount("docker-bin", "/usr/local/docker/bin") && t.dind.Some?)
            || (t.qemu.None? && t.desktop.Some? && m in t.desktop.value.mounts)
  {
    CgroupsAreNeeded(t);
    InMachineMounts(t, SessionMounts(t, dir, user), m);
  }

  lemma InMachineMounts(t: Template, mounts: seq<Mount>, m: Mount)
    ensures m in WithMachineMounts(t, mounts)
       <==> || m in mounts
            || (m == Mount("cgroups", "/sys/fs/cgroup") && NeedsCgroups(t))
            || (m == Mount("qemu-kvm", "/dev/kvm") && t.qemu.Some?)
            || (m == Mount("qemu-disk-image", "/disk") && t.qemu == Some(true))
            || (m == Mount("docker-bin", "/usr/local/docker/bin") && t.dind.Some?)
  {
    var s4 := With(mounts, NeedsCgroups(t), [Mount(CGROUPS, "/sys/fs/cgroup")]);
    var s5 := With(s4, t.qemu.Some?, [Mount(KVM, "/dev/kvm")]);
    var s6 := With(s5, t.qemu == Some(true), [Mount(QEMU_DISK, "/disk")]);
    InWith(mounts, NeedsCgroups(t), Mount(CGROUPS, "/sys/fs/cgroup"), m);
    InWith(s4, t.qemu.Some?, Mount(KVM, "/dev/kvm"), m);
    InWith(s5, t.qemu == Some(true), Mount(QEMU_DISK, "/disk"), m);
    InWith(s6, t.dind.Some?, Mount(DOCKER_BIN, "/usr/local/docker/bin"), m);
  }

  /** The docker sidecar shares /run with the desktop, and an init container puts the docker client where the desktop
      looks for it, unless the template is a QEMU one whose disk image is copied: then that is all it does. */
  lemma DockerIsPlaced(t: Template, dir: string -> string, user: string)
    requires t.dind.Some?
    ensures var run, bin := Mount("run", "/run"), Mount("docker-bin", "/usr/local/docker/bin");
      && run in DesktopMounts(t, dir, user) && run in DindMounts(t)
      && Mount("docker-data", "/var/lib/docker") in DindMounts(t)
      && bin in DesktopMounts(t, dir, user)
      && (bin in InitMounts(t) <==> t.qemu != Some(false))
  {
    InDesktopMounts(t, dir, user, Mount("docker-bin", "/usr/local/docker/bin"));
    InSessionMounts(t, dir, user, Mount("run", "/run"));
    SessionMountsStay(t, dir, user, Mount("run", "/run"));
  }

  /** A QEMU template without CSI has its disk image copied to /run, and templates with neither have nothing done. */
  lemma InitMountsOtherwise(t: Template)
    ensures t.qemu == Some(false) ==> InitMounts(t) == [Mount("run", "/run")]
    ensures t.qemu != Some(false) && t.dind.None? ==> InitMounts(t) == []
  {
  }

  /** Where the display socket is, for a path and for each way to give it. */
  lemma DisplaySocketOf(t: Template, p: string)
    ensures var given := if t.proxy.Some? then t.proxy.value.socketAddr else "";
      && (given == "" ==> IsUnixSocket(t) && SocketAddress(t) == "/var/run/kvdi/display.sock")
      && (given == "unix://" + p && !("tcp://" <= p) ==> IsUnixSocket(t) && SocketAddress(t) == p)
      && (given == "tcp://" + p ==> !IsUnixSocket(t) && SocketAddress(t) == p)
      && (given != "" && !("unix://" <= given) && !("tcp://" <= given) ==>
            !IsUnixSocket(t) && SocketAddress(t) == given)
  {
    assert ("unix://" + p)[7..] == p && ("tcp://" + p)[6..] == p;
    assert "unix:///var/run/kvdi/display.sock"[7..] == "/var/run/kvdi/display.sock";
    assert ("tcp://" + p)[0] == 't' && "unix://"[0] == 'u';
    assert "/var/run/kvdi/display.sock"[0] == '/' && "tcp://"[0] == 't';
  }

  lemma PulseSocketOf(t: Template, p: string)
    ensures var given := if t.proxy.Some? then t.proxy.value.pulseServer else "";
      && (given == "" ==> PulseServer(t) == "/run/user/9000/pulse/native")
      && (given == "unix://" + p ==> PulseServer(t) == p)
      && (given != "" && !("unix://" <= given) ==> PulseServer(t) == given)
  {
    assert ("unix://" + p)[7..] == p;
  }

  /** kvdi brings a volume for the pulse socket exactly when nothing else is mounted above it: not the display socket's
      directory, no mount of the template's, and none of kvdi's own. */
  lemma PulseVolumeExactly(t: Template, dir: string -> string)
    requires TmpVolume(t) != "pulse-sock"
    ensures var pulse := PulseServer(t);
      Mount("pulse-sock", dir(pulse)) in ProxyMounts(t, dir)
      <==> && !("/tmp" <= pulse) && !("/run" <= pulse) && !("/home" <= pulse)
           && (t.desktop.Some? ==> forall m <- t.desktop.value.mounts :: !(m.path <= pulse))
           && !("unix://" <= SocketUri(t) && dir(SocketAddress(t)) == dir(pulse))
  {
    InProxyMounts(t, dir, Mount("pulse-sock", dir(PulseServer(t))));
  }

  /** A path is on one volume that both containers mount at one place above it. */
  ghost predicate Shared(t: Template, dir: string -> string, user: string, path: string) {
    exists m, n ::
      && m in DesktopMounts(t, dir, user) && n in ProxyMounts(t, dir)
      && m.name == n.name && TrimSlash(m.path) == TrimSlash(n.path) && TrimSlash(n.path) <= path
  }

  lemma SharedBy(t: Template, dir: string -> string, user: string, path: string, m: Mount, n: Mount)
    requires m in DesktopMounts(t, dir, user) && n in ProxyMounts(t, dir)
    requires m.name == n.name && TrimSlash(m.path) == TrimSlash(n.path) && TrimSlash(n.path) <= path
    ensures Shared(t, dir, user, path)
  {
  }

  lemma SharedMount(t: Template, dir: string -> string, user: string, path: string, m: Mount)
    requires m in SessionMounts(t, dir, user) && m in ProxyMounts(t, dir) && m.path <= path
    ensures Shared(t, dir, user, path)
  {
    SessionMountsStay(t, dir, user, m);
    SharedBy(t, dir, user, path, m, m);
  }

  lemma TmpPathsShared(t: Template, dir: string -> string, user: string, path: string)
    requires "/tmp" <= path && (t.qemu.None? || NeedsEmptyTmpVolume(t))
    ensures Shared(t, dir, user, path)
  {
    var n := Mount(TmpVolume(t), "/tmp");
    TmpIsShared(t, dir, user);
    InProxyMounts(t, dir, n);
    var m :| m in DesktopMounts(t, dir, user) && m.name == TmpVolume(t) && TrimSlash(m.path) == TMP_PATH;
    SharedBy(t, dir, user, path, m, n);
  }

  /** The proxy reaches the directory of the desktop's display socket wherever a template puts it; only a QEMU template
      that brings its own /tmp keeps a socket there to itself. */
  lemma DisplayIsShared(t: Template, dir: string -> string, user: string)
    requires "unix://" <= SocketUri(t)
    requires "/tmp" <= dir(SocketAddress(t)) ==> t.qemu.None? || NeedsEmptyTmpVolume(t)
    ensures Shared(t, dir, user, dir(SocketAddress(t)))
  {
    if NeedsSocketVolume(t, dir) {
      var m := Mount(VNC_SOCK, dir(SocketAddress(t)));
      InSessionMounts(t, dir, user, m);
      InProxyMounts(t, dir, m);
      SharedMount(t, dir, user, dir(SocketAddress(t)), m);
    } else {
      TmpPathsShared(t, dir, user, dir(SocketAddress(t)));
    }
  }

  /** And that of its pulse socket, when it is not under /home, no mount of the template's own is above it, and the
      same holds of /tmp. */
  lemma PulseIsShared(t: Template, dir: string -> string, user: string)
    requires dir(PulseServer(t)) <= PulseServer(t) && !("/home" <= PulseServer(t))
    requires forall m <- UserMounts(t) :: !(m.path <= PulseServer(t))
    requires "/tmp" <= PulseServer(t) || "/tmp" <= dir(SocketAddress(t)) ==> t.qemu.None? || NeedsEmptyTmpVolume(t)
    ensures Shared(t, dir, user, PulseServer(t))
  {
    if NeedsDedicatedPulseVolume(t, dir) {
      var m := Mount(PULSE_SOCK, dir(PulseServer(t)));
      InSessionMounts(t, dir, user, m);
      InProxyMounts(t, dir, m);
      SharedMount(t, dir, user, PulseServer(t), m);
    } else if "/run" <= PulseServer(t) {
      var m := Mount(RUN, "/run");
      InSessionMounts(t, dir, user, m);
      InProxyMounts(t, dir, m);
      SharedMount(t, dir, user, PulseServer(t), m);
    } else if "/tmp" <= PulseServer(t) {
      TmpPathsShared(t, dir, user, PulseServer(t));
    } else {
      DisplayIsShared(t, dir, user);
      SharedAbove(t, dir, user, dir(SocketAddress(t)), PulseServer(t));
    }
  }

  lemma SharedAbove(t: Template, dir: string -> string, user: string, above: string, path: string)
    requires Shared(t, dir, user, above) && above <= path
    ensures Shared(t, dir, user, path)
  {
    var m, n :|
      && m in DesktopMounts(t, dir, user) && n in ProxyMounts(t, dir)
      && m.name == n.name && TrimSlash(m.path) == TrimSlash(n.path) && TrimSlash(n.path) <= above;
    SharedBy(t, dir, user, path, m, n);
  }

  /** The desktop's home is on the volume that holds the user's data. */
  lemma HomeHoldsUserdata(t: Template, dir: string -> string, session: string, userdata: string, user: string)
    ensures Mount("home", "/home/" + user) in DesktopMounts(t, dir, user)
    ensures userdata != "" ==> Volume("home", Claim(userdata)) in GeneratedVolumes(t, dir, session, userdata)
  {
    InSessionMounts(t, dir, user, Mount(HOME, "/home/" + user));
    SessionMountsStay(t, dir, user, Mount(HOME, "/home/" + user));
    DeclaredGenerated(t, dir, session, userdata, HOME);
    VolumesAreSourced(t, dir, session, userdata);
  }
}

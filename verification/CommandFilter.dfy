/**
 The blocklist filter shared by the web terminal and the cron writer
 (panel/agent/src/services/command_filter.rs).

 Lower-casing is a library function of Rust with context rules of its own
 (the Greek final sigma), so it is a parameter here.
 */
module CommandFilter {
  import opened Text

  const BLOCKED_PATTERNS: seq<string> := [
    "rm -rf /", "rm -rf /*", "mkfs", "dd if=", "> /dev/",
    "chmod 777 /", "chown", "passwd", "shadow",
    "|sh", "|bash", "| sh", "| bash",
    ";sh", ";bash", "; sh", "; bash",
    "`", "$(", "eval ", "exec ",
    "base64", "xxd", "openssl enc", "printf '\\x",
    "perl", "ruby", "node -e", "php -r",
    "python -c", "python2 -c", "python3 -c",
    "python -m http", "python3 -m http",
    "nc ", "ncat ", "socat ", "telnet ",
    "curl", "wget",
    "/etc/passwd", "/etc/shadow", "/etc/sudoers",
    "; ",
    "> /etc/", "> /root/", "> /var/",
    "< /etc/", "< /root/",
    "shutdown", "reboot", "init ",
    "useradd", "userdel", "usermod", "adduser", "addgroup",
    "\\x", "\\0"
  ]

  const TERMINAL_BLOCKED_PATTERNS: seq<string> := [
    "su ", "su\t", "sudo ",
    "apt ", "apt-get ", "dpkg ", "yum ", "dnf ", "snap ",
    "systemctl ", "service ",
    "insmod ", "modprobe ", "rmmod ", "kexec ",
    "docker ", "nsenter ", "unshare ", "chroot ", "pivot_root ", "capsh ", "mknod ", "debugfs ",
    "mount ", "umount ", "fdisk ", "parted ",
    "ssh-keygen", "authorized_keys",
    "crontab",
    "kill ", "killall ", "pkill ",
    "||", "&&",
    "iptables", "ip6tables", "nft ", "ufw ",
    "/var/www/"
  ]

  predicate ContainsAny(s: string, patterns: seq<string>) {
    exists p | p in patterns :: Contains(s, p)
  }

  /** `is_safe_terminal_command`. */
  predicate IsSafeTerminalCommand(lower: string -> string, cmd: string) {
    || Trim(cmd) == ""
    || (&& !ContainsAny(lower(cmd), BLOCKED_PATTERNS)
        && !ContainsAny(lower(cmd), TERMINAL_BLOCKED_PATTERNS))
  }

  /** `is_safe_cron_command`; the source's length limit counts UTF-8 bytes, given here as `byteLen`. */
  predicate IsSafeCronCommand(lower: string -> string, byteLen: string -> nat, cmd: string) {
    && cmd != ""
    && byteLen(cmd) <= 4096
    && '\0' !in cmd && '\n' !in cmd && '\r' !in cmd
    && '`' !in cmd
    && !Contains(cmd, "$(") && !Contains(cmd, "| ") && !Contains(cmd, "|/")
    && !Contains(cmd, "<(") && !Contains(cmd, "<<")
    && !ContainsAny(lower(cmd), BLOCKED_PATTERNS)
  }

  /**
   What the filter needs of lower-casing: a blocked pattern found in the lower-cased
   form of a piece of a line is also found in the lower-cased form of the line.
   */
  ghost predicate KeepsPatterns(lower: string -> string) {
    forall piece, line, p ::
      Contains(line, piece) && p in BLOCKED_PATTERNS + TERMINAL_BLOCKED_PATTERNS && Contains(lower(piece), p)
      ==> Contains(lower(line), p)
  }

  /** An accepted line stays accepted when it is shortened to any piece of itself. */
  lemma PieceOfSafeIsSafe(lower: string -> string, line: string, piece: string)
    requires KeepsPatterns(lower)
    requires Contains(line, piece)
    requires Trim(line) != "" && IsSafeTerminalCommand(lower, line)
    ensures IsSafeTerminalCommand(lower, piece)
  {
    forall p | p in BLOCKED_PATTERNS ensures !Contains(lower(piece), p) {
      assert p in BLOCKED_PATTERNS + TERMINAL_BLOCKED_PATTERNS;
    }
    forall p | p in TERMINAL_BLOCKED_PATTERNS ensures !Contains(lower(piece), p) {
      assert p in BLOCKED_PATTERNS + TERMINAL_BLOCKED_PATTERNS;
    }
  }

  lemma NoneEmbedded(s: string, patterns: seq<string>)
    ensures !ContainsAny(s, patterns) <==> forall p | p in patterns :: !Embeds(s, p)
  {
    forall p ensures Contains(s, p) <==> Embeds(s, p) {
      ContainsEmbeds(s, p);
    }
  }

  /**
   The terminal refuses exactly the lines that are not blank and in whose lower-cased
   form one of these words stands.
   */
  lemma AcceptedExactly(lower: string -> string, line: string)
    ensures IsSafeTerminalCommand(lower, line) <==>
            || AllWhite(line)
            || (&& (forall p | p in [
                       "rm -rf /", "rm -rf /*", "mkfs", "dd if=", "> /dev/",
                       "chmod 777 /", "chown", "passwd", "shadow",
                       "|sh", "|bash", "| sh", "| bash",
                       ";sh", ";bash", "; sh", "; bash",
                       "`", "$(", "eval ", "exec ",
                       "base64", "xxd", "openssl enc", "printf '\\x",
                       "perl", "ruby", "node -e", "php -r",
                       "python -c", "python2 -c", "python3 -c",
                       "python -m http", "python3 -m http",
                       "nc ", "ncat ", "socat ", "telnet ",
                       "curl", "wget",
                       "/etc/passwd", "/etc/shadow", "/etc/sudoers",
                       "; ",
                       "> /etc/", "> /root/", "> /var/",
                       "< /etc/", "< /root/",
                       "shutdown", "reboot", "init ",
                       "useradd", "userdel", "usermod", "adduser", "addgroup",
                       "\\x", "\\0"
                     ] :: !Embeds(lower(line), p))
                && (forall p | p in [
                       "su ", "su\t", "sudo ",
                       "apt ", "apt-get ", "dpkg ", "yum ", "dnf ", "snap ",
                       "systemctl ", "service ",
                       "insmod ", "modprobe ", "rmmod ", "kexec ",
                       "docker ", "nsenter ", "unshare ", "chroot ", "pivot_root ", "capsh ", "mknod ", "debugfs ",
                       "mount ", "umount ", "fdisk ", "parted ",
                       "ssh-keygen", "authorized_keys",
                       "crontab",
                       "kill ", "killall ", "pkill ",
                       "||", "&&",
                       "iptables", "ip6tables", "nft ", "ufw ",
                       "/var/www/"
                     ] :: !Embeds(lower(line), p)))
  {
    hide Trim, AllWhite, ContainsAny, Embeds;
    TrimEmptyExactly(line);
    NoneEmbedded(lower(line), BLOCKED_PATTERNS);
    NoneEmbedded(lower(line), TERMINAL_BLOCKED_PATTERNS);
  }

  /** The cron writer takes exactly these commands. */
  lemma CronAcceptedExactly(lower: string -> string, byteLen: string -> nat, cmd: string)
    ensures IsSafeCronCommand(lower, byteLen, cmd) <==>
            && 0 < |cmd| && byteLen(cmd) <= 4096
            && (forall p | p in ["\0", "\n", "\r", "`", "$(", "| ", "|/", "<(", "<<"] :: !Embeds(cmd, p))
            && (forall p | p in [
                       "rm -rf /", "rm -rf /*", "mkfs", "dd if=", "> /dev/",
                       "chmod 777 /", "chown", "passwd", "shadow",
                       "|sh", "|bash", "| sh", "| bash",
                       ";sh", ";bash", "; sh", "; bash",
                       "`", "$(", "eval ", "exec ",
                       "base64", "xxd", "openssl enc", "printf '\\x",
                       "perl", "ruby", "node -e", "php -r",
                       "python -c", "python2 -c", "python3 -c",
                       "python -m http", "python3 -m http",
                       "nc ", "ncat ", "socat ", "telnet ",
                       "curl", "wget",
                       "/etc/passwd", "/etc/shadow", "/etc/sudoers",
                       "; ",
                       "> /etc/", "> /root/", "> /var/",
                       "< /etc/", "< /root/",
                       "shutdown", "reboot", "init ",
                       "useradd", "userdel", "usermod", "adduser", "addgroup",
                       "\\x", "\\0"
                     ] :: !Embeds(lower(cmd), p))
  {
    hide Contains, ContainsAny, Embeds;
    NoneEmbedded(lower(cmd), BLOCKED_PATTERNS);
    forall p ensures Contains(cmd, p) <==> Embeds(cmd, p) {
      ContainsEmbeds(cmd, p);
    }
    CharEmbeds(cmd, '\0');
    CharEmbeds(cmd, '\n');
    CharEmbeds(cmd, '\r');
    CharEmbeds(cmd, '`');
  }
}
